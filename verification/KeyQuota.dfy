/**
 add_key05.c: the byte and key quotas of a user, and the requests the test computes to sit
 exactly at and one past the limits.
 */
module KeyQuota {
  /** Payloads of a "user" key must have 1..32767 bytes. */
  const PAYLOAD_MAX := 32767

  datatype Result = Added | Einval | Edquot

  /** What the kernel keeps for a user; overhead is charged for every key beside its own bytes. */
  datatype Quota = Quota(usedKeys: nat, maxKeys: nat, usedBytes: nat, maxBytes: nat, overhead: nat)

  /** Description with its terminating zero, payload, overhead. */
  function Charge(q: Quota, descLen: nat, plen: nat): nat {
    descLen + 1 + plen + q.overhead
  }

  function Outcome(q: Quota, descLen: nat, plen: int): Result {
    if plen < 1 || plen > PAYLOAD_MAX then Einval
    else if q.usedKeys + 1 > q.maxKeys || q.usedBytes + Charge(q, descLen, plen) > q.maxBytes then Edquot
    else Added
  }

  /** A key is added exactly when its payload has a proper length and both quotas have room for it. */
  lemma Admission(q: Quota, descLen: nat, plen: int)
    ensures Outcome(q, descLen, plen) == Einval <==> !(1 <= plen <= 32767)
    ensures Outcome(q, descLen, plen) == Added <==>
      1 <= plen <= 32767 && q.usedKeys < q.maxKeys && q.usedBytes + descLen + 1 + plen + q.overhead <= q.maxBytes
  {
  }

  class User {
    var q: Quota

    constructor (q: Quota)
      ensures this.q == q
    {
      this.q := q;
    }

    method AddKey(desc: string, plen: int) returns (r: Result)
      modifies this
      ensures r == Outcome(old(q), |desc|, plen)
      ensures q == if r == Added
        then old(q).(usedKeys := old(q).usedKeys + 1, usedBytes := old(q).usedBytes + Charge(old(q), |desc|, plen))
        else old(q)
    {
      r := Outcome(q, |desc|, plen);
      if r == Added {
        q := q.(usedKeys := q.usedKeys + 1, usedBytes := q.usedBytes + Charge(q, |desc|, plen));
      }
    }
  }

  /** failed: a key that had to fit did not; the flags are the three passes of the test. */
  datatype BytesReport = Failed | Report(overRefused: bool, maxAdded: bool, exact: bool)

  /** The length of the request that is one byte too long, after test2 has been added. */
  function InvalidLength(q: Quota): int {
    q.maxBytes - (q.usedBytes + Charge(q, 5, 64)) - q.overhead - 8
  }

  /** The length of the request that fits exactly, after test3 and test4 as well. */
  function ExactLength(q: Quota): int {
    q.maxBytes - (q.usedBytes + 3 * Charge(q, 5, 64)) - q.overhead - 8 - 1
  }

  /** Enough room for the three small keys and a last key that is neither empty nor too long. */
  predicate Room(q: Quota) {
    q.usedKeys + 4 <= q.maxKeys && ExactLength(q) >= 1 && InvalidLength(q) <= PAYLOAD_MAX
  }

  /** What k of the three small keys take. */
  function SmallBytes(q: Quota, k: nat): nat {
    if k == 0 then 0 else if k == 1 then Charge(q, 5, 64) else if k == 2 then 2 * Charge(q, 5, 64) else 3 * Charge(q, 5, 64)
  }

  predicate SmallFit(q: Quota, k: nat) {
    q.usedKeys + k <= q.maxKeys && q.usedBytes + SmallBytes(q, k) <= q.maxBytes
  }

  function AfterSmall(q: Quota, k: nat): Quota {
    q.(usedKeys := q.usedKeys + k, usedBytes := q.usedBytes + SmallBytes(q, k))
  }

  /** How many of test2, test3 and test4 fit. */
  function SmallKeys(q: Quota): (k: nat)
    requires q.usedBytes <= q.maxBytes
    ensures k <= 3 && (k > 0 ==> SmallFit(q, k)) && (k < 3 ==> !SmallFit(q, k + 1))
  {
    if !SmallFit(q, 1) then 0 else if !SmallFit(q, 2) then 1 else if !SmallFit(q, 3) then 2 else 3
  }

  /** The next of the three keys. */
  method AddSmallKey(u: User, desc: string, ghost q: Quota, ghost k: nat) returns (added: bool)
    requires |desc| == 5 && k < 3 && u.q == AfterSmall(q, k) && (k == 0 || SmallFit(q, k))
    modifies u
    ensures added <==> SmallFit(q, k + 1)
    ensures u.q == AfterSmall(q, if added then k + 1 else k)
  {
    var a := u.AddKey(desc, 64);
    added := a == Added;
  }

  /**
   Of the key just past the quota nothing is charged; of the last key every byte, which
   makes the use equal to the limit.  All three passes happen exactly when there is room;
   the buffer allocated for the longer request then holds the shorter one.
   */
  method VerifyMaxBytes(u: User) returns (r: BytesReport, bufLen: int, plen: int)
    requires u.q.usedBytes <= u.q.maxBytes
    modifies u
    ensures r == Report(true, true, true) <==> Room(old(u.q))
    ensures var q := old(u.q);
      r == if q.usedKeys + 4 <= q.maxKeys && 1 <= ExactLength(q) <= PAYLOAD_MAX
           then Report(InvalidLength(q) <= PAYLOAD_MAX, true, true) else Failed
    ensures var q := old(u.q); var k := SmallKeys(q);
      r == Failed ==> u.q == AfterSmall(q, k)
    ensures bufLen == if SmallKeys(old(u.q)) > 0 then InvalidLength(old(u.q)) else 0
    ensures plen == if SmallKeys(old(u.q)) == 3 then ExactLength(old(u.q)) else 0
    ensures Room(old(u.q)) ==> u.q.usedBytes == u.q.maxBytes && 1 <= plen <= bufLen
  {
    bufLen, plen := 0, 0;
    var tmpUsedBytes := u.q.usedBytes;
    ghost var q := u.q;
    var added := AddSmallKey(u, "test2", q, 0);
    if !added {
      return Failed, bufLen, plen;
    }
    var usedBytes, maxBytes := u.q.usedBytes, u.q.maxBytes;
    var delta := usedBytes - tmpUsedBytes - |"test2"| - 1 - 64;
    var invalidPlen := maxBytes - usedBytes - delta - |"test_xxx"|;
    bufLen := invalidPlen;
    var a := u.AddKey("test_inv", invalidPlen);
    if a == Added {
      return Failed, bufLen, plen;
    }
    var overRefused := a == Edquot;
    added := AddSmallKey(u, "test3", q, 1);
    if !added {
      return Failed, bufLen, plen;
    }
    added := AddSmallKey(u, "test4", q, 2);
    if !added {
      return Failed, bufLen, plen;
    }
    usedBytes, maxBytes := u.q.usedBytes, u.q.maxBytes;
    plen := maxBytes - usedBytes - delta - |"test_xxx"| - 1;
    a := u.AddKey("test_max", plen);
    if a != Added {
      return Failed, bufLen, plen;
    }
    r := Report(overRefused, true, u.q.usedBytes == u.q.maxBytes);
  }

  /** The request test_inv would exceed the limit by one byte; test_max would reach it. */
  lemma ByOneByte(q: Quota)
    ensures var after := q.usedBytes + Charge(q, 5, 64);
      InvalidLength(q) >= 0 ==> after + Charge(q, 8, InvalidLength(q)) == q.maxBytes + 1
    ensures var after := q.usedBytes + 3 * Charge(q, 5, 64);
      ExactLength(q) >= 0 ==> after + Charge(q, 8, ExactLength(q)) == q.maxBytes
    ensures InvalidLength(q) == ExactLength(q) + 2 * Charge(q, 5, 64) + 1
  {
  }

  function DecimalDigits(n: nat): nat {
    if n < 10 then 1 else 1 + DecimalDigits(n / 10)
  }

  /** The bytes the keys abc<i> for i in from..to take. */
  function Filling(q: Quota, from: nat, to: nat): nat
    decreases to
  {
    if to <= from then 0 else Filling(q, from, to - 1) + Charge(q, 3 + DecimalDigits(to), 64)
  }

  /**
   The loop fills the key quota up and one more key is refused, provided the bytes of the
   keys it adds are within the byte quota; it passes exactly then.
   */
  method VerifyMaxKeys(u: User) returns (refused: bool, exact: bool)
    requires u.q.usedKeys <= u.q.maxKeys && u.q.usedBytes <= u.q.maxBytes
    modifies u
    ensures exact <==> old(u.q.usedBytes + Filling(u.q, u.q.usedKeys, u.q.maxKeys) <= u.q.maxBytes)
    ensures exact <==> u.q.usedKeys == u.q.maxKeys
    ensures refused <==> exact
    ensures var q, k := old(u.q), u.q.usedKeys;
      && q.usedKeys <= k <= q.maxKeys && u.q == q.(usedKeys := k, usedBytes := q.usedBytes + Filling(q, q.usedKeys, k))
      && (k < q.maxKeys ==> q.usedBytes + Filling(q, q.usedKeys, k + 1) > q.maxBytes)
  {
    ghost var q := u.q;
    var i := u.q.usedKeys + 1;
    var maxKey := u.q.maxKeys;
    var failed := false;
    while i <= maxKey && !failed
      invariant q.usedKeys + 1 <= i <= maxKey + 1
      invariant u.q == q.(usedKeys := i - 1, usedBytes := q.usedBytes + Filling(q, q.usedKeys, i - 1))
      invariant u.q.usedBytes <= q.maxBytes
      invariant failed ==> i <= maxKey && q.usedBytes + Filling(q, q.usedKeys, i) > q.maxBytes
      decreases maxKey + 1 - i, !failed
    {
      var desc := "abc" + Decimal(i);
      var a := u.AddKey(desc, 64);
      if a != Added {
        failed := true;
      } else {
        i := i + 1;
      }
    }
    refused := false;
    if failed {
      FillingGrows(q, q.usedKeys, i, maxKey);
    } else {
      var a := u.AddKey("test_invalid_key", 64);
      refused := a == Edquot;
    }
    exact := u.q.usedKeys == u.q.maxKeys;
  }

  function Decimal(n: nat): (s: string)
    ensures |s| == DecimalDigits(n)
  {
    var digit := ['0' + (n % 10) as char];
    if n < 10 then digit else Decimal(n / 10) + digit
  }

  /** A digit string read as a number. */
  function Value(s: string): int {
    if s == "" then 0 else 10 * Value(s[..|s| - 1]) + (s[|s| - 1] as int - '0' as int)
  }

  /** The description ends in the number of the key, in digits and without leading zeros. */
  lemma {:induction false} DecimalIsNumber(n: nat)
    ensures var s := Decimal(n);
      && Value(s) == n && s != "" && (n > 0 ==> s[0] != '0')
      && forall i :: 0 <= i < |s| ==> '0' <= s[i] <= '9'
  {
    if n >= 10 {
      DecimalIsNumber(n / 10);
    } else {
      assert Decimal(n)[..0] == "";
    }
  }

  lemma {:induction false} FillingGrows(q: Quota, from: nat, a: nat, b: nat)
    requires a <= b
    ensures Filling(q, from, a) <= Filling(q, from, b)
    decreases b
  {
    if a < b {
      FillingGrows(q, from, a, b - 1);
    }
  }
}
