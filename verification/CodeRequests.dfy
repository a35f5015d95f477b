/** What each second-factor request does, told by the account and by how the world answers, and when a row can go. */
module CodeRequests {
  import opened Options
  import opened Text
  import opened BackupCodes

  /** The hash of the submitted code is stored. */
  predicate Stored(hash: string -> Hash, row: Option<Row>, code: string) {
    row.Some? && row.value.codes.Listed? && hash(TrimSpace(code)) in row.value.codes.hashes
  }

  lemma FoundIff(h: Hash, hashes: seq<Hash>)
    ensures IndexIn(h, hashes) < |hashes| <==> h in hashes
  {
  }

  /** How a verification ends. An unreadable row is a failure; a row that is missing or not enabled accepts nothing;
      on an enabled row a valid TOTP code is accepted and spends nothing; otherwise a stored backup code is accepted,
      and its first occurrence spent, if the shortened list can be written, and is a failure that spends nothing if
      not; any other code is not accepted. */
  lemma VerifyMeaning(hash: string -> Hash, row: Option<Row>, code: string, w: World)
    ensures var (row', answer) := VerifySpec(hash, row, code, w);
            var ready := w.canRead && row.Some? && row.value.enabled;
            && (answer == ByTotp <==> ready && w.totp)
            && (answer.ByCode? <==> ready && !w.totp && Stored(hash, row, code) && w.canWrite)
            && (answer == Failed <==> !w.canRead || (ready && !w.totp && Stored(hash, row, code) && !w.canWrite))
            && (!answer.ByCode? ==> row' == row)
            && (answer.ByCode? ==>
                  && answer.hash == hash(TrimSpace(code))
                  && row'.Some? && row'.value.enabled && row'.value.codes.Listed?
                  && var i := IndexIn(answer.hash, row.value.codes.hashes);
                     i < |row.value.codes.hashes| && row'.value.codes.hashes == RemoveAt(row.value.codes.hashes, i))
  {
    hide TrimSpace;
    if row.Some? && row.value.codes.Listed? {
      FoundIff(hash(TrimSpace(code)), row.value.codes.hashes);
    }
  }

  /** The code would be accepted: valid as TOTP, or stored with a list that can be shortened. */
  predicate Passes(hash: string -> Hash, row: Option<Row>, code: string, w: World) {
    w.canRead && row.Some? && row.value.enabled && (w.totp || (Stored(hash, row, code) && w.canWrite))
  }

  /** Disabling makes a row go if and only if the row can be read and is enabled, the code is valid as TOTP or is a
      stored one whose spending can be written, and the row can be deleted. The flag is cleared then, and only then,
      if the admin record can be written. A code that is not accepted changes nothing. */
  lemma DisableMeaning(hash: string -> Hash, acct: Account, code: string, w: World, canDelete: bool, canFlag: bool)
    ensures var (acct', answer) := Apply(hash, acct, Disable(code, w, canDelete, canFlag));
            && (acct.row.Some? ==> (acct'.row.None? <==> Passes(hash, acct.row, code, w) && canDelete))
            && (acct.row.None? ==> acct'.row.None?)
            && (!Passes(hash, acct.row, code, w) ==> acct' == acct && !Accepted(answer))
            && (Passes(hash, acct.row, code, w) ==> Accepted(answer))
            && acct'.flag == (if Passes(hash, acct.row, code, w) && canDelete && canFlag then false else acct.flag)
  {
    TrimTwice(code);
    VerifyMeaning(hash, acct.row, TrimSpace(code), w);
    hide VerifySpec, TrimSpace;
  }

  /** New codes replace the old ones if and only if the row can be read and is enabled, the TOTP code is valid, and
      the codes can be made and written; otherwise nothing changes. */
  lemma RegenerateMeaning(hash: string -> Hash, acct: Account, canRead: bool, totp: bool, made: Option<seq<Hash>>,
                          canWrite: bool)
    ensures var acct' := Apply(hash, acct, Regenerate(canRead, totp, made, canWrite)).0;
            var done := canRead && acct.row.Some? && acct.row.value.enabled && totp && made.Some? && canWrite;
            acct' == if done then Account(Some(Row(true, Listed(made.value))), acct.flag) else acct
  {
  }

  /** An enrolment leaves an enabled row with exactly the new codes if and only if the code is valid and the codes
      can be made and the row written; then the flag is set if the admin record can be written. */
  lemma EnrollMeaning(hash: string -> Hash, acct: Account, totp: bool, made: Option<seq<Hash>>, canWrite: bool, canFlag: bool)
    ensures var acct' := Apply(hash, acct, Enroll(totp, made, canWrite, canFlag)).0;
            acct' == if totp && made.Some? && canWrite
                     then Account(Some(Row(true, Listed(made.value))), canFlag || acct.flag) else acct
  {
  }

  // ----- runs

  /** The code of a request to disable is neither valid as TOTP nor one issued last time and not yet spent. */
  predicate Worthless(hash: string -> Hash, before: seq<Step>, s: Step) {
    s.Disable? ==>
      !s.world.totp && Used(hash, before)[hash(TrimSpace(s.code))] >= Current(hash, before)[hash(TrimSpace(s.code))]
  }

  lemma RowStaysOneStep(hash: string -> Hash, before: seq<Step>, s: Step)
    requires Run(hash, before).row.Some? && Worthless(hash, before, s)
    ensures Apply(hash, Run(hash, before), s).0.row.Some?
  {
    var acct := Run(hash, before);
    CodesAreConserved(hash, before);
    match s
    case Verify(code, w) => VerifyMeaning(hash, acct.row, code, w);
      hide VerifySpec, Run;
    case Disable(code, w, canDelete, canFlag) =>
      var h := hash(TrimSpace(code));
      assert multiset(acct.row.value.codes.hashes)[h] == 0;
      assert !Stored(hash, acct.row, code);
      DisableMeaning(hash, acct, code, w, canDelete, canFlag);
      hide Apply, Run;
    case _ =>
  }

  /** Once there is a row, no sequence of requests makes it go unless some request to disable carries a code that is
      valid as TOTP or was issued last time and not yet spent. */
  lemma {:induction false} RowStays(hash: string -> Hash, before: seq<Step>, more: seq<Step>)
    requires Run(hash, before).row.Some?
    requires forall i :: 0 <= i < |more| ==> Worthless(hash, before + more[..i], more[i])
    ensures Run(hash, before + more).row.Some?
  {
    if more == [] {
      assert before + more == before;
    } else {
      var n := |more| - 1;
      forall i | 0 <= i < n ensures Worthless(hash, before + more[..n][..i], more[..n][i]) {
        assert more[..n][..i] == more[..i];
      }
      RowStays(hash, before, more[..n]);
      RowStaysOneStep(hash, before + more[..n], more[n]);
      RunLast(hash, before, more);
    }
  }

  lemma RunLast(hash: string -> Hash, before: seq<Step>, more: seq<Step>)
    requires more != []
    ensures var n := |more| - 1;
            Run(hash, before + more) == Apply(hash, Run(hash, before + more[..n]), more[n]).0
  {
    var n := |more| - 1;
    assert (before + more)[..|before + more| - 1] == before + more[..n];
  }
}
