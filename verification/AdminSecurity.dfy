/** The handlers on the stored rows and admin records, against BackupCodes. */
module AdminSecurity {
  import opened Options
  import opened Text
  import opened BackupCodes

  /** The tail moves down by one over the deleted element, in the same array. */
  method DeleteAt<T>(a: array<T>, i: nat)
    requires i < a.Length
    modifies a
    ensures a[..a.Length - 1] == RemoveAt(old(a[..]), i)
  {
    var k := i;
    while k + 1 < a.Length
      invariant i <= k < a.Length
      invariant a[..k] == old(a[..i]) + old(a[i + 1..k + 1])
      invariant forall j :: k < j < a.Length ==> a[j] == old(a[j])
    {
      ghost var done := a[..k];
      a[k] := a[k + 1];
      assert a[..k + 1] == done + [a[k]];
      assert old(a[i + 1..k + 2]) == old(a[i + 1..k + 1]) + [old(a[k + 1])];
      k := k + 1;
    }
    assert old(a[i + 1..k + 1]) == old(a[i + 1..]);
    assert old(a[..])[..i] == old(a[..i]) && old(a[..])[i + 1..] == old(a[i + 1..]);
  }

  class AdminStore {
    var rows: map<int, Row>
    var flags: map<int, bool>
    const hash: string -> Hash

    constructor (hash: string -> Hash)
      ensures this.hash == hash
      ensures forall u :: AccountOf(u) == START
    {
      this.hash := hash;
      rows := map[];
      flags := map[];
    }

    ghost function RowOf(user: int): Option<Row>
      reads this
    {
      if user in rows then Some(rows[user]) else None
    }

    ghost function AccountOf(user: int): Account
      reads this
    {
      Account(RowOf(user), user in flags && flags[user])
    }

    /** UpdateTOTPBackupCodes: no row, nothing to update. */
    method UpdateCodes(user: int, codes: Codes)
      modifies this`rows
      ensures rows == if user in old(rows) then old(rows)[user := old(rows)[user].(codes := codes)] else old(rows)
    {
      if user in rows {
        rows := rows[user := rows[user].(codes := codes)];
      }
    }

    /** The scan for the submitted code; the first equal hash is spent. */
    method Spend(user: int, list: seq<Hash>, target: Hash, canWrite: bool) returns (answer: Answer)
      requires user in rows && HashesOf(rows[user].codes) == list
      modifies this`rows
      ensures var i := IndexIn(target, list);
              if i == |list| || !canWrite
              then rows == old(rows) && answer == if i == |list| then NotAccepted else Failed
              else rows == old(rows)[user := old(rows)[user].(codes := Listed(RemoveAt(list, i)))]
                   && answer == ByCode(target)
    {
      var hashes := new Hash[|list|](k requires 0 <= k < |list| => list[k]);
      assert hashes[..] == list;
      var i := 0;
      while i < hashes.Length
        invariant 0 <= i <= hashes.Length
        invariant hashes[..] == list && rows == old(rows)
        invariant forall k :: 0 <= k < i ==> list[k] != target
      {
        if hashes[i] == target {
          assert IndexIn(target, list) == i;
          DeleteAt(hashes, i);
          var remaining := hashes[..hashes.Length - 1];
          if !canWrite {
            return Failed;
          }
          UpdateCodes(user, Listed(remaining));
          return ByCode(target);
        }
        i := i + 1;
      }
      return NotAccepted;
    }

    /** verifyTOTPOrBackupCode, and its twin for the login form. */
    method VerifyCode(user: int, code: string, w: World) returns (answer: Answer)
      modifies this`rows
      ensures (RowOf(user), answer) == VerifySpec(hash, old(RowOf(user)), code, w)
      ensures forall u :: u != user ==> RowOf(u) == old(RowOf(u))
    {
      if !w.canRead {
        return Failed;
      }
      if user !in rows || !rows[user].enabled {
        return NotAccepted;
      }
      if w.totp {
        return ByTotp;
      }
      var list := [];
      match rows[user].codes {
        case Blank =>
        case Listed(hashes) => list := hashes;
        case Unreadable => return NotAccepted;
      }
      answer := Spend(user, list, hash(TrimSpace(code)), w.canWrite);
    }

    method DisableTotp(user: int, code: string, w: World, canDelete: bool, canFlag: bool) returns (answer: Answer)
      modifies this
      ensures (AccountOf(user), answer) == Apply(hash, old(AccountOf(user)), Disable(code, w, canDelete, canFlag))
      ensures forall u :: u != user ==> AccountOf(u) == old(AccountOf(u))
    {
      answer := VerifyCode(user, TrimSpace(code), w);
      if !answer.ByTotp? && !answer.ByCode? {
        return;
      }
      if !canDelete {
        return;
      }
      rows := rows - {user};
      if canFlag {
        flags := flags[user := false];
      }
    }

    method RegenerateCodes(user: int, canRead: bool, totp: bool, made: Option<seq<Hash>>, canWrite: bool) returns (ok: bool)
      modifies this`rows
      ensures AccountOf(user) == Apply(hash, old(AccountOf(user)), Regenerate(canRead, totp, made, canWrite)).0
      ensures ok <==> Issues(old(AccountOf(user)), Regenerate(canRead, totp, made, canWrite)).Some?
      ensures forall u :: u != user ==> AccountOf(u) == old(AccountOf(u))
    {
      if !canRead || user !in rows || !rows[user].enabled {
        return false;
      }
      if !totp || made.None? || !canWrite {
        return false;
      }
      UpdateCodes(user, Listed(made.value));
      return true;
    }

    method ConfirmEnrollment(user: int, totp: bool, made: Option<seq<Hash>>, canWrite: bool, canFlag: bool) returns (ok: bool)
      modifies this
      ensures AccountOf(user) == Apply(hash, old(AccountOf(user)), Enroll(totp, made, canWrite, canFlag)).0
      ensures ok <==> totp && made.Some? && canWrite && canFlag
      ensures forall u :: u != user ==> AccountOf(u) == old(AccountOf(u))
    {
      if !totp || made.None? || !canWrite {
        return false;
      }
      rows := rows[user := Row(true, Listed(made.value))];
      if !canFlag {
        return false;
      }
      flags := flags[user := true];
      return true;
    }
  }
}
