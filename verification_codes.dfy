/**
 * Verification codes: the six-digit codes mailed for email verification and
 * password reset, the validity test the repository applies when a code is
 * redeemed, and the invalidation of every live code of an email before a new
 * one is issued.
 */
module VerificationCodes {
  import opened Common
  import opened Collections
  import opened Entities

  /** A code expires fifteen minutes after it is issued. */
  const CodeLifetime: int := 15 * SecondsPerMinute

  /** `GetValidCodeAsync`'s test: same email, code and type, not used, and not yet expired. */
  predicate IsValidCode(vc: VerificationCode, email: string, code: string, kind: string, now: int) {
    vc.email == email && vc.code == code && vc.kind == kind && vc.isUsed != Some(true) && vc.expiresAt > now
  }

  function ValidFor(email: string, code: string, kind: string, now: int): VerificationCode -> bool {
    (vc: VerificationCode) => IsValidCode(vc, email, code, kind, now)
  }

  /** `GetValidCodeAsync`: the first valid row, by position. */
  function GetValidCode(codes: seq<VerificationCode>, email: string, code: string, kind: string, now: int): (r: Option<nat>)
    ensures r.Some? ==> r.value < |codes| && IsValidCode(codes[r.value], email, code, kind, now)
    ensures r.None? ==> forall k :: 0 <= k < |codes| ==> !IsValidCode(codes[k], email, code, kind, now)
  {
    FirstIndex(codes, ValidFor(email, code, kind, now))
  }

  /** The rows `InvalidateAllCodesAsync(email, type)` selects: same email and type, not used. */
  predicate IsLive(vc: VerificationCode, email: string, kind: string) {
    vc.email == email && vc.kind == kind && vc.isUsed != Some(true)
  }

  /** The table after `InvalidateAllCodesAsync(email, type)`: every selected row marked used, nothing else changed. */
  function Invalidated(codes: seq<VerificationCode>, email: string, kind: string): (r: seq<VerificationCode>)
    ensures |r| == |codes|
    ensures forall k :: 0 <= k < |codes| ==>
      r[k] == if IsLive(codes[k], email, kind) then codes[k].(isUsed := Some(true)) else codes[k]
  {
    seq(|codes|, k requires 0 <= k < |codes| =>
      if IsLive(codes[k], email, kind) then codes[k].(isUsed := Some(true)) else codes[k])
  }

  function MarkUsed(): VerificationCode -> VerificationCode {
    (vc: VerificationCode) => vc.(isUsed := Some(true))
  }

  function LiveFor(email: string, kind: string): VerificationCode -> bool {
    (vc: VerificationCode) => IsLive(vc, email, kind)
  }

  /** The repository's loop, once it has marked every selected row, has produced the invalidated table. */
  lemma InvalidateIsLoop(codes: seq<VerificationCode>, email: string, kind: string,
                         rows: seq<nat>, i: nat, after: seq<VerificationCode>)
    requires rows == IndicesWhere(codes, LiveFor(email, kind)) && i == |rows|
    requires after == ApplyAt(codes, rows[..i], MarkUsed())
    ensures after == Invalidated(codes, email, kind)
  {
    assert rows[..i] == rows;
    ApplyAtPointwise(codes, rows, MarkUsed());
  }

  /** After invalidation no code of that email and type is valid, whatever the code and the time. */
  lemma InvalidateLeavesNoValidCode(codes: seq<VerificationCode>, email: string, kind: string, code: string, now: int)
    ensures GetValidCode(Invalidated(codes, email, kind), email, code, kind, now).None?
  {
    var r := Invalidated(codes, email, kind);
    assert forall k :: 0 <= k < |r| ==> !IsValidCode(r[k], email, code, kind, now);
  }

  /** Invalidation for one email and type leaves the answers for every other email or type unchanged. */
  lemma {:induction false} InvalidateKeepsOtherCodes(codes: seq<VerificationCode>, email: string, kind: string,
                                                     otherEmail: string, code: string, otherKind: string, now: int)
    requires otherEmail != email || otherKind != kind
    ensures GetValidCode(Invalidated(codes, email, kind), otherEmail, code, otherKind, now)
         == GetValidCode(codes, otherEmail, code, otherKind, now)
  {
    if codes != [] {
      InvalidateKeepsOtherCodes(codes[1..], email, kind, otherEmail, code, otherKind, now);
      assert Invalidated(codes, email, kind)[1..] == Invalidated(codes[1..], email, kind);
    }
  }

  /** The row a flow inserts for a freshly generated code: unused, expiring fifteen minutes from now. */
  function NewCode(email: string, code: string, kind: string, now: int): (vc: VerificationCode)
    ensures vc.email == email && vc.code == code && vc.kind == kind
    ensures vc.createdAt == now && vc.expiresAt == now + 900 && vc.isUsed == Some(false)
  {
    VerificationCode(email, code, kind, now, now + CodeLifetime, Some(false))
  }

  /** A fresh code is valid from its issue until just before fifteen minutes have passed, and never after. */
  lemma FreshCodeWindow(email: string, code: string, kind: string, issued: int, now: int)
    ensures issued <= now < issued + 900 ==> IsValidCode(NewCode(email, code, kind, issued), email, code, kind, now)
    ensures now >= issued + 900 ==> !IsValidCode(NewCode(email, code, kind, issued), email, code, kind, now)
  {
  }

  /**
   * Reissuing (invalidate, then insert a fresh code) leaves exactly one code
   * of that email and type redeemable: the new one, for its fifteen minutes.
   */
  lemma {:induction false} ReissueLeavesOnlyNewCode(codes: seq<VerificationCode>, email: string, kind: string,
                                                    newCode: string, now: int, code: string, later: int)
    ensures var after := Invalidated(codes, email, kind) + [NewCode(email, newCode, kind, now)];
      GetValidCode(after, email, code, kind, later).Some? <==>
        code == newCode && later < now + 900
    ensures var after := Invalidated(codes, email, kind) + [NewCode(email, newCode, kind, now)];
      GetValidCode(after, email, code, kind, later).Some? ==>
        GetValidCode(after, email, code, kind, later).value == |codes|
  {
    var inv := Invalidated(codes, email, kind);
    var after := inv + [NewCode(email, newCode, kind, now)];
    assert forall k :: 0 <= k < |codes| ==> !IsValidCode(after[k], email, code, kind, later) by {
      forall k | 0 <= k < |codes| ensures !IsValidCode(after[k], email, code, kind, later) {
        assert after[k] == inv[k];
      }
    }
    assert after[|codes|] == NewCode(email, newCode, kind, now);
  }

  /** Redeeming a code marks it used: the number of rows that would still accept it drops by one. */
  lemma RedeemedCodeCountsOneLess(codes: seq<VerificationCode>, i: nat, email: string, code: string, kind: string, now: int)
    requires i < |codes| && IsValidCode(codes[i], email, code, kind, now)
    ensures CountWhere(codes[i := codes[i].(isUsed := Some(true))], ValidFor(email, code, kind, now)) + 1
         == CountWhere(codes, ValidFor(email, code, kind, now))
  {
    CountAfterUpdate(codes, i, codes[i].(isUsed := Some(true)), ValidFor(email, code, kind, now));
  }

  /** A code that was the only row accepting it cannot be redeemed twice. */
  lemma RedeemedOnlyCodeIsGone(codes: seq<VerificationCode>, i: nat, email: string, code: string, kind: string, now: int)
    requires i < |codes| && IsValidCode(codes[i], email, code, kind, now)
    requires CountWhere(codes, ValidFor(email, code, kind, now)) == 1
    ensures GetValidCode(codes[i := codes[i].(isUsed := Some(true))], email, code, kind, now).None?
  {
    var after := codes[i := codes[i].(isUsed := Some(true))];
    RedeemedCodeCountsOneLess(codes, i, email, code, kind, now);
    CountZero(after, ValidFor(email, code, kind, now));
  }

  /**
   * `GenerateVerificationCode`: `Random.Next(100000, 999999)` rendered in
   * decimal; the random draw is the parameter. The result is six digits
   * without a leading zero.
   */
  function GenerateVerificationCode(draw: int): (r: string)
    requires 100000 <= draw < 999999
    ensures |r| == 6 && r[0] != '0'
    ensures forall i :: 0 <= i < |r| ==> IsDigit(r[i])
  {
    assert Pow10(5) == 100000 by {
      assert Pow10(2) == 100;
      assert Pow10(4) == 10000;
    }
    assert Pow10(6) == 10 * Pow10(5);
    NatToStringLength(draw, 6);
    NatToString(draw)
  }
}
