/** Second-factor accounts: a TOTP secret and a list of hashed one-time backup codes. The secret's cipher, the
    TOTP check and the hash are parameters; every store call may fail. */
module BackupCodes {
  import opened Options
  import opened Text

  type Hash = string

  /** The backup_codes column: empty, JSON of a list of hashes, or something that does not parse. */
  datatype Codes = Blank | Listed(hashes: seq<Hash>) | Unreadable

  datatype Row = Row(enabled: bool, codes: Codes)

  /** One admin: the secret's row and the admin record's flag. */
  datatype Account = Account(row: Option<Row>, flag: bool)

  /** How the outside world answers one verification: whether the row can be read, whether the secret decrypts
      and the code is valid for it now, and whether the shortened list can be written. */
  datatype World = World(canRead: bool, totp: bool, canWrite: bool)

  datatype Answer = NotAccepted | Failed | ByTotp | ByCode(hash: Hash)

  /** A request, with how the world answers it; `made` holds the newly made codes unless making them fails. */
  datatype Step =
    | Verify(code: string, world: World)
    | Disable(code: string, world: World, canDelete: bool, canFlag: bool)
    | Regenerate(canRead: bool, totp: bool, made: Option<seq<Hash>>, canWrite: bool)
    | Enroll(totp: bool, made: Option<seq<Hash>>, canWrite: bool, canFlag: bool)

  function IndexIn(h: Hash, hashes: seq<Hash>): (r: nat)
    ensures r <= |hashes|
    ensures r < |hashes| ==> hashes[r] == h
    ensures forall k :: 0 <= k < r ==> hashes[k] != h
  {
    if hashes == [] || hashes[0] == h then 0 else 1 + IndexIn(h, hashes[1..])
  }

  function RemoveAt<T>(s: seq<T>, i: nat): seq<T>
    requires i < |s|
  {
    s[..i] + s[i + 1..]
  }

  function HashesOf(codes: Codes): seq<Hash> {
    if codes.Listed? then codes.hashes else []
  }

  function VerifySpec(hash: string -> Hash, row: Option<Row>, code: string, w: World): (Option<Row>, Answer) {
    if !w.canRead then (row, Failed)
    else if row.None? || !row.value.enabled then (row, NotAccepted)
    else if w.totp then (row, ByTotp)
    else if row.value.codes.Unreadable? then (row, NotAccepted)
    else
      var hashes, target := HashesOf(row.value.codes), hash(TrimSpace(code));
      var i := IndexIn(target, hashes);
      if i == |hashes| then (row, NotAccepted)
      else if !w.canWrite then (row, Failed)
      else (Some(row.value.(codes := Listed(RemoveAt(hashes, i)))), ByCode(target))
  }

  predicate Accepted(a: Answer) {
    a.ByTotp? || a.ByCode?
  }

  /** One request: the account after it, and how the submitted code was accepted, if it was. */
  function Apply(hash: string -> Hash, acct: Account, s: Step): (Account, Answer) {
    match s
    case Verify(code, w) =>
      var (row, answer) := VerifySpec(hash, acct.row, code, w);
      (acct.(row := row), answer)
    case Disable(code, w, canDelete, canFlag) =>
      var (row, answer) := VerifySpec(hash, acct.row, TrimSpace(code), w);
      if !Accepted(answer) || !canDelete then (acct.(row := row), answer)
      else (Account(None, if canFlag then false else acct.flag), answer)
    case Regenerate(canRead, totp, made, canWrite) =>
      if canRead && acct.row.Some? && acct.row.value.enabled && totp && made.Some? && canWrite
      then (acct.(row := Some(acct.row.value.(codes := Listed(made.value)))), ByTotp)
      else (acct, NotAccepted)
    case Enroll(totp, made, canWrite, canFlag) =>
      if totp && made.Some? && canWrite
      then (Account(Some(Row(true, Listed(made.value))), if canFlag then true else acct.flag), ByTotp)
      else (acct, NotAccepted)
  }

  /** The hashes a step issues, when it does. */
  function Issues(acct: Account, s: Step): Option<seq<Hash>> {
    match s
    case Regenerate(canRead, totp, made, canWrite) =>
      if canRead && acct.row.Some? && acct.row.value.enabled && totp && canWrite then made else None
    case Enroll(totp, made, canWrite, _) => if totp && canWrite then made else None
    case _ => None
  }

  // ----- runs

  const START := Account(None, false)

  function Run(hash: string -> Hash, steps: seq<Step>): Account {
    if steps == [] then START
    else Apply(hash, Run(hash, steps[..|steps| - 1]), steps[|steps| - 1]).0
  }

  function Spent(a: Answer): multiset<Hash> {
    if a.ByCode? then multiset{a.hash} else multiset{}
  }

  function Answered(hash: string -> Hash, steps: seq<Step>): Answer
    requires steps != []
  {
    Apply(hash, Run(hash, steps[..|steps| - 1]), steps[|steps| - 1]).1
  }

  function IssuedBy(hash: string -> Hash, steps: seq<Step>): Option<seq<Hash>>
    requires steps != []
  {
    Issues(Run(hash, steps[..|steps| - 1]), steps[|steps| - 1])
  }

  /** The codes of the last issuance. */
  function Current(hash: string -> Hash, steps: seq<Step>): multiset<Hash> {
    if steps == [] then multiset{}
    else if IssuedBy(hash, steps).Some? then multiset(IssuedBy(hash, steps).value)
    else Current(hash, steps[..|steps| - 1])
  }

  /** The codes accepted since the last issuance. */
  function Used(hash: string -> Hash, steps: seq<Step>): multiset<Hash> {
    if steps == [] then multiset{}
    else if IssuedBy(hash, steps).Some? then multiset{}
    else Used(hash, steps[..|steps| - 1]) + Spent(Answered(hash, steps))
  }

  function EverIssued(hash: string -> Hash, steps: seq<Step>): multiset<Hash> {
    if steps == [] then multiset{}
    else
      EverIssued(hash, steps[..|steps| - 1])
      + if IssuedBy(hash, steps).Some? then multiset(IssuedBy(hash, steps).value) else multiset{}
  }

  function EverAccepted(hash: string -> Hash, steps: seq<Step>): multiset<Hash> {
    if steps == [] then multiset{}
    else EverAccepted(hash, steps[..|steps| - 1]) + Spent(Answered(hash, steps))
  }

  function Remaining(row: Option<Row>): multiset<Hash> {
    if row.Some? then multiset(HashesOf(row.value.codes)) else multiset{}
  }

  /** A row that this program wrote is enabled and its list parses. */
  predicate Formed(row: Option<Row>) {
    row.Some? ==> row.value.enabled && row.value.codes.Listed?
  }

  lemma RemoveAtSpends<T>(s: seq<T>, i: nat)
    requires i < |s|
    ensures multiset(RemoveAt(s, i)) + multiset{s[i]} == multiset(s)
  {
    assert s == s[..i] + [s[i]] + s[i + 1..];
  }

  lemma NothingSpent(m: multiset<Hash>)
    ensures multiset{} + m == m
  {
  }

  /** One verification conserves codes: what it accepts is exactly what leaves the list. */
  lemma VerifyConserves(hash: string -> Hash, row: Option<Row>, code: string, w: World)
    requires Formed(row)
    ensures var (row', answer) := VerifySpec(hash, row, code, w);
            Formed(row') && row'.Some? == row.Some? && Spent(answer) + Remaining(row') == Remaining(row)
  {
    hide TrimSpace, IndexIn, RemoveAt;
    NothingSpent(Remaining(row));
    if row.Some? {
      var hashes := HashesOf(row.value.codes);
      var i := IndexIn(hash(TrimSpace(code)), hashes);
      if i < |hashes| {
        RemoveAtSpends(hashes, i);
      }
    }
  }

  /** So does every request, unless it issues a new list or removes the row. */
  lemma StepConserves(hash: string -> Hash, acct: Account, s: Step)
    requires Formed(acct.row)
    ensures var (acct', answer) := Apply(hash, acct, s);
            && Formed(acct'.row)
            && Spent(answer) <= Remaining(acct.row)
            && (Issues(acct, s).Some? ==> acct'.row.Some? && Spent(answer) == multiset{}
                                          && Remaining(acct'.row) == multiset(Issues(acct, s).value))
            && (Issues(acct, s).None? ==> Spent(answer) + Remaining(acct'.row) <= Remaining(acct.row))
            && (Issues(acct, s).None? && acct'.row.Some? ==>
                  acct.row.Some? && Spent(answer) + Remaining(acct'.row) == Remaining(acct.row))
  {
    hide VerifySpec, TrimSpace;
    match s
    case Verify(code, w) => VerifyConserves(hash, acct.row, code, w);
    case Disable(code, w, _, _) => VerifyConserves(hash, acct.row, TrimSpace(code), w);
    case _ =>
  }

  /** In every run, while the row exists, the codes accepted since the last issuance and the codes still stored
      are together exactly the codes then issued; none is accepted that was not issued. */
  lemma {:induction false} CodesAreConserved(hash: string -> Hash, steps: seq<Step>)
    ensures Formed(Run(hash, steps).row)
    ensures Run(hash, steps).row.Some? ==>
              Used(hash, steps) + Remaining(Run(hash, steps).row) == Current(hash, steps)
    ensures Used(hash, steps) <= Current(hash, steps)
  {
    if steps != [] {
      var before := steps[..|steps| - 1];
      CodesAreConserved(hash, before);
      StepConserves(hash, Run(hash, before), steps[|steps| - 1]);
    }
  }

  /** Over a whole run, across re-issuances and removals, no code is accepted more often than it was issued. */
  lemma {:induction false} NeverMoreThanIssued(hash: string -> Hash, steps: seq<Step>)
    ensures EverAccepted(hash, steps) + Remaining(Run(hash, steps).row) <= EverIssued(hash, steps)
  {
    if steps != [] {
      var before := steps[..|steps| - 1];
      NeverMoreThanIssued(hash, before);
      CodesAreConserved(hash, before);
      StepConserves(hash, Run(hash, before), steps[|steps| - 1]);
    }
  }

  lemma {:induction false} AcceptedSoFar(hash: string -> Hash, steps: seq<Step>, i: nat, h: Hash)
    requires 0 < i <= |steps| && Answered(hash, steps[..i]) == ByCode(h)
    ensures EverAccepted(hash, steps)[h] >= EverAccepted(hash, steps[..i - 1])[h] + 1
  {
    if i == |steps| {
      assert steps[..i] == steps;
    } else {
      var before := steps[..|steps| - 1];
      assert before[..i] == steps[..i] && before[..i - 1] == steps[..i - 1];
      AcceptedSoFar(hash, before, i, h);
    }
  }

  /** A code issued once is accepted at most once: no two requests of any run are both accepted by it. */
  lemma AcceptedAtMostOnce(hash: string -> Hash, steps: seq<Step>, h: Hash, i: nat, j: nat)
    requires EverIssued(hash, steps)[h] <= 1
    requires 0 < i < j <= |steps| && Answered(hash, steps[..i]) == ByCode(h)
    ensures Answered(hash, steps[..j]) != ByCode(h)
  {
    if Answered(hash, steps[..j]) == ByCode(h) {
      var upTo := steps[..j - 1];
      assert upTo[..i] == steps[..i];
      AcceptedSoFar(hash, upTo, i, h);
      AcceptedSoFar(hash, steps, j, h);
      NeverMoreThanIssued(hash, steps);
    }
  }

  /** After any run, a backup code opens the door exactly when the row exists and the code was issued last time
      more often than it has been accepted since. Where TOTP decides, nothing is spent. */
  lemma AcceptanceIsExact(hash: string -> Hash, steps: seq<Step>, code: string)
    ensures var row, target := Run(hash, steps).row, hash(TrimSpace(code));
            VerifySpec(hash, row, code, World(true, false, true)).1 ==
            if row.Some? && Used(hash, steps)[target] < Current(hash, steps)[target] then ByCode(target) else NotAccepted
  {
    hide TrimSpace;
    CodesAreConserved(hash, steps);
    var row, target := Run(hash, steps).row, hash(TrimSpace(code));
    if row.Some? {
      var hashes := HashesOf(row.value.codes);
      assert target in multiset(hashes) <==> target in hashes;
      assert Current(hash, steps)[target] == Used(hash, steps)[target] + multiset(hashes)[target];
    }
  }

  lemma FlagStep(hash: string -> Hash, acct: Account, s: Step)
    requires Formed(acct.row) && acct.flag == acct.row.Some?
    requires s.Disable? || s.Enroll? ==> s.canFlag
    ensures var acct' := Apply(hash, acct, s).0; acct'.flag == acct'.row.Some?
  {
    hide VerifySpec, TrimSpace;
    match s
    case Verify(code, w) => VerifyConserves(hash, acct.row, code, w);
    case Disable(code, w, _, _) => VerifyConserves(hash, acct.row, TrimSpace(code), w);
    case _ =>
  }

  /** Where no write of the admin record fails, its flag says whether the row exists. */
  lemma {:induction false} FlagAgrees(hash: string -> Hash, steps: seq<Step>)
    requires forall i :: 0 <= i < |steps| && (steps[i].Disable? || steps[i].Enroll?) ==> steps[i].canFlag
    ensures Run(hash, steps).flag == Run(hash, steps).row.Some?
  {
    hide Apply;
    if steps != [] {
      var before := steps[..|steps| - 1];
      FlagAgrees(hash, before);
      CodesAreConserved(hash, before);
      FlagStep(hash, Run(hash, before), steps[|steps| - 1]);
    }
  }
}
