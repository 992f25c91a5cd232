/** Order-number generation (package `id`). The clock, the random draw and the
    process-wide counter are explicit arguments; Go strings are modelled byte for byte
    (each char of a Dafny string stands for one byte). */
module OrderId {
  import opened Wrappers
  import opened Arith
  import opened Decimal

  type uint32 = x: int | 0 <= x < 0x1_0000_0000

  /** The counter resets when an increment reaches this value. */
  const WrapLimit: uint32 := 1000

  /** The counter value after one Increase: a 32-bit wrapping add, then the
      compare-and-swap that turns exactly 1000 into 0. */
  function Next(v: uint32): uint32 {
    var added := (v + 1) % 0x1_0000_0000;
    if added == WrapLimit then 0 else added
  }

  /** The counter value after n sequential increases starting from v. */
  function After(v: uint32, n: nat): uint32 {
    if n == 0 then v else Next(After(v, n - 1))
  }

  /** The wrapping counter (`idCounter`). Sequential semantics only. */
  class IdCounter {
    var value: uint32

    /** A fresh counter holds Go's zero value. */
    constructor ()
      ensures value == 0
    {
      value := 0;
    }

    /** Returns the value read before the increment; the counter then holds Next of it. */
    method Increase() returns (cur: uint32)
      modifies this
      ensures cur == old(value)
      ensures value == Next(old(value))
      ensures old(value) < WrapLimit ==> value < WrapLimit
    {
      cur := value;
      value := (value + 1) % 0x1_0000_0000;
      if value == WrapLimit {
        value := 0;
      }
    }
  }

  /** Inside the window [0, 1000) an increase is addition modulo 1000. */
  lemma NextInWindow(v: uint32)
    requires v < WrapLimit
    ensures Next(v) == (v + 1) % 1000 && Next(v) < WrapLimit
  {
  }

  /** From a value inside the window, n sequential increases add n modulo 1000. */
  lemma {:induction false} AfterIsModular(v: uint32, n: nat)
    requires v < WrapLimit
    ensures After(v, n) == (v + n) % 1000
  {
    if n > 0 {
      AfterIsModular(v, n - 1);
      NextInWindow(After(v, n - 1));
      ModSucc(v + n - 1, 1000);
    }
  }

  /** 1000 sequential calls from a fresh counter return 0, 1, ..., 999 in this order. */
  lemma FreshCounterSequence(i: nat)
    requires i < 1000
    ensures After(0, i) == i
  {
    AfterIsModular(0, i);
  }

  /** After a full window of 1000 calls the counter is back where it started, so the
      1001st call from a fresh counter returns 0 again. */
  lemma WindowWrapsAround(v: uint32)
    requires v < WrapLimit
    ensures After(v, WrapLimit as nat) == v
  {
    AfterIsModular(v, WrapLimit as nat);
    DivModUnique(v + 1000, 1000, 1, v);
  }

  /** Fewer than 1000 sequential calls from inside the window return distinct values. */
  lemma WindowDistinct(v: uint32, i: nat, j: nat)
    requires v < WrapLimit && i < j < i + 1000
    ensures After(v, i) != After(v, j)
  {
    AfterIsModular(v, i);
    AfterIsModular(v, j);
    var a, b := (v + i) / 1000, (v + j) / 1000;
    assert (b - a) * 1000 == (j - i) + (v + i) % 1000 - (v + j) % 1000;
    if b - a >= 1 {
      MulAtLeast(b - a, 1000);
    } else {
      MulAtLeast(1 - (b - a), 1000);
    }
  }

  /** A wall-clock reading in the location the time carries: the calendar fields the
      layout "20060102150405" prints, and the nanosecond within the second. */
  datatype DateTime = DateTime(year: int, month: int, day: int, hour: int,
                               minute: int, second: int, nanosecond: int)
  {
    predicate Valid() {
      0 <= year <= 9999 && 1 <= month <= 12 && 1 <= day <= 31 && 0 <= hour < 24 &&
      0 <= minute < 60 && 0 <= second < 60 && 0 <= nanosecond < 1_000_000_000
    }
  }

  type Instant = t: DateTime | t.Valid() witness DateTime(1970, 1, 1, 0, 0, 0, 0)

  /** A draw of `rand.Intn(10000)`. */
  type Draw = r: int | 0 <= r < 10000

  lemma PowersOfTen()
    ensures Pow(10, 2) == 100 && Pow(10, 3) == 1000 && Pow(10, 4) == 10000
    ensures Pow(10, 6) == 1_000_000
  {
    assert Pow(10, 1) == 10;
    assert Pow(10, 2) == 100;
    assert Pow(10, 3) == 1000;
    assert Pow(10, 4) == 10000;
    assert Pow(10, 5) == 100000;
  }

  /** `tm.Format("20060102150405")`: four-digit year, then two digits each for month,
      day, hour (24-hour clock), minute and second. */
  function Stamp(t: Instant): (s: string)
    ensures |s| == 14 && AllDigits(s)
  {
    PowersOfTen();
    PaddedFacts(t.year, 4);
    PaddedFacts(t.month, 2);
    PaddedFacts(t.day, 2);
    PaddedFacts(t.hour, 2);
    PaddedFacts(t.minute, 2);
    PaddedFacts(t.second, 2);
    FormatPadded(t.year, 4) + FormatPadded(t.month, 2) + FormatPadded(t.day, 2) +
    FormatPadded(t.hour, 2) + FormatPadded(t.minute, 2) + FormatPadded(t.second, 2)
  }

  /** Each field of the instant can be read back from its place in the stamp. */
  lemma StampFields(t: Instant)
    ensures Value(Stamp(t)[..4]) == t.year && Value(Stamp(t)[4..6]) == t.month
    ensures Value(Stamp(t)[6..8]) == t.day && Value(Stamp(t)[8..10]) == t.hour
    ensures Value(Stamp(t)[10..12]) == t.minute && Value(Stamp(t)[12..]) == t.second
  {
    PowersOfTen();
    PaddedFacts(t.year, 4);
    PaddedFacts(t.month, 2);
    PaddedFacts(t.day, 2);
    PaddedFacts(t.hour, 2);
    PaddedFacts(t.minute, 2);
    PaddedFacts(t.second, 2);
    var s := Stamp(t);
    assert s[..4] == FormatPadded(t.year, 4);
    assert s[4..6] == FormatPadded(t.month, 2);
    assert s[6..8] == FormatPadded(t.day, 2);
    assert s[8..10] == FormatPadded(t.hour, 2);
    assert s[10..12] == FormatPadded(t.minute, 2);
    assert s[12..] == FormatPadded(t.second, 2);
  }

  /** Two instants get the same stamp exactly when they agree to the second. */
  lemma StampInjective(a: Instant, b: Instant)
    ensures Stamp(a) == Stamp(b) <==>
            (a.year, a.month, a.day, a.hour, a.minute, a.second) ==
            (b.year, b.month, b.day, b.hour, b.minute, b.second)
  {
    StampFields(a);
    StampFields(b);
  }

  /** Where the three parts of a concatenation sit. */
  lemma Concat3(a: string, b: string, c: string)
    ensures (a + b + c)[..|a|] == a && (a + b + c)[|a|..|a| + |b|] == b
    ensures (a + b + c)[|a| + |b|..] == c && (a + b + c)[|a|..] == b + c
  {
  }

  /** The layout of a tenant order ID: 14 + 5 + 4 + 4 bytes. */
  lemma TenantIdLayout(stamp: string, tenant: string, nano: string, random: string)
    requires |stamp| == 14 && |tenant| == 5 && |nano| == 4 && |random| == 4
    requires AllDigits(nano) && AllDigits(random)
    ensures var id := stamp + tenant + nano + random;
      |id| == 27 && id[..14] == stamp && id[14..19] == tenant && id[19..23] == nano &&
      id[23..] == random && AllDigits(id[19..])
  {
    var id := stamp + tenant + nano + random;
    assert id[19..] == nano + random;
  }

  /** The four-digit suffix of a draw. */
  lemma DrawDigits(r: Draw)
    ensures |FormatPadded(r, 4)| == 4 && AllDigits(FormatPadded(r, 4))
    ensures Value(FormatPadded(r, 4)) == r
  {
    PowersOfTen();
    PaddedFacts(r, 4);
  }

  /** The first four of the six zero-padded digits of m < 10^6 denote m / 100. */
  lemma NanoFragment(m: nat)
    requires m < 1_000_000
    ensures |FormatPadded(m, 6)| == 6 && AllDigits(FormatPadded(m, 6)[..4])
    ensures |FormatPadded(m, 6)[..4]| == 4
    ensures Value(FormatPadded(m, 6)[..4]) == m / 100
  {
    PowersOfTen();
    PaddedFacts(m, 6);
    var p := FormatPadded(m, 6);
    DropLastDigits(p, 2);
    assert p[..|p| - 2] == p[..4];
  }

  /** `GenerateOrderIdWithRandom`: prefix, the 14-digit stamp of `tm` (of `now` when
      `tm` is nil), then the draw as four zero-padded digits. */
  function GenerateOrderIdWithRandom(prefix: string, tm: Option<Instant>, now: Instant,
                                     r: Draw): (id: string)
    ensures |id| == |prefix| + 18
    ensures id[..|prefix|] == prefix
    ensures tm.Some? ==> id[|prefix|..|prefix| + 14] == Stamp(tm.value)
    ensures tm.None? ==> id[|prefix|..|prefix| + 14] == Stamp(now)
    ensures AllDigits(id[|prefix|..]) && Value(id[|prefix| + 14..]) == r
  {
    var t := if tm.Some? then tm.value else now;
    DrawDigits(r);
    var stamp, suffix := Stamp(t), FormatPadded(r, 4);
    Concat3(prefix, stamp, suffix);
    prefix + stamp + suffix
  }

  /** The string `GenerateOrderIdWithIncreaseIndex` builds around a counter value:
      prefix, stamp, then the value in decimal without padding (one to three digits
      while the counter stays inside its window). */
  function IndexOrderId(prefix: string, t: Instant, index: uint32): (id: string)
    ensures |prefix| + 15 <= |id| && (index < WrapLimit ==> |id| <= |prefix| + 17)
    ensures id[..|prefix|] == prefix && id[|prefix|..|prefix| + 14] == Stamp(t)
    ensures AllDigits(id[|prefix|..]) && Value(id[|prefix| + 14..]) == index
    ensures id[|prefix| + 14] == '0' ==> index == 0
    ensures index == 0 ==> |id| == |prefix| + 15
  {
    PowersOfTen();
    ValueOfFormat(index);
    assert index < WrapLimit ==> |Format(index)| <= 3 by {
      if index < WrapLimit { FormatLength(index, 3); }
    }
    var stamp, suffix := Stamp(t), Format(index);
    Concat3(prefix, stamp, suffix);
    prefix + stamp + suffix
  }

  /** `GenerateOrderIdWithIncreaseIndex`: takes the next counter value. */
  method GenerateOrderIdWithIncreaseIndex(counter: IdCounter, prefix: string,
                                          tm: Option<Instant>, now: Instant)
    returns (id: string)
    modifies counter
    ensures id == IndexOrderId(prefix, if tm.Some? then tm.value else now, old(counter.value))
    ensures counter.value == Next(old(counter.value))
  {
    var t := if tm.Some? then tm.value else now;
    var index := counter.Increase();
    id := IndexOrderId(prefix, t, index);
  }

  /** With the same prefix and time, distinct counter values give distinct IDs. */
  lemma IndexOrderIdInjective(prefix: string, t: Instant, i: uint32, j: uint32)
    ensures IndexOrderId(prefix, t, i) == IndexOrderId(prefix, t, j) <==> i == j
  {
    var a, b := IndexOrderId(prefix, t, i), IndexOrderId(prefix, t, j);
    if a == b {
      assert a[|prefix| + 14..] == b[|prefix| + 14..];
    }
  }

  /** Counter-suffixed IDs minted with one prefix and one time by fewer than 1000
      sequential calls, starting inside the window, are pairwise distinct. */
  lemma IndexOrderIdsDistinctInWindow(prefix: string, t: Instant, v: uint32, i: nat, j: nat)
    requires v < WrapLimit && i < j < i + 1000
    ensures IndexOrderId(prefix, t, After(v, i)) != IndexOrderId(prefix, t, After(v, j))
  {
    WindowDistinct(v, i, j);
    IndexOrderIdInjective(prefix, t, After(v, i), After(v, j));
  }

  /** Entry k of `ids` is the ID minted with the counter value after k increases from v. */
  predicate MintedFrom(ids: seq<string>, prefix: string, t: Instant, v: uint32) {
    forall k :: 0 <= k < |ids| ==> ids[k] == IndexOrderId(prefix, t, After(v, k))
  }

  lemma MintedFromExtend(ids: seq<string>, prefix: string, t: Instant, v: uint32)
    requires MintedFrom(ids, prefix, t, v)
    ensures MintedFrom(ids + [IndexOrderId(prefix, t, After(v, |ids|))], prefix, t, v)
  {
  }

  /** `n` sequential calls of `GenerateOrderIdWithIncreaseIndex` with one prefix and one
      time: the i-th ID carries the counter value after i increases, and when the counter
      starts inside its window and at most 1000 IDs are minted they are pairwise distinct. */
  method MintIndexOrderIds(counter: IdCounter, prefix: string, t: Instant, n: nat)
    returns (ids: seq<string>)
    modifies counter
    ensures |ids| == n && MintedFrom(ids, prefix, t, old(counter.value))
    ensures counter.value == After(old(counter.value), n)
    ensures old(counter.value) < WrapLimit && n <= 1000 ==>
              forall i, j :: 0 <= i < j < n ==> ids[i] != ids[j]
  {
    ghost var v0 := counter.value;
    ids := [];
    var i := 0;
    while i < n
      invariant 0 <= i <= n && |ids| == i
      invariant counter.value == After(v0, i)
      invariant MintedFrom(ids, prefix, t, v0)
    {
      var id := GenerateOrderIdWithIncreaseIndex(counter, prefix, Some(t), t);
      MintedFromExtend(ids, prefix, t, v0);
      ids := ids + [id];
      i := i + 1;
    }
    if v0 < WrapLimit && n <= 1000 {
      MintedIdsDistinct(ids, prefix, t, v0);
    }
  }

  /** IDs carrying the counter values of consecutive calls from inside the window, at most
      1000 of them, are pairwise distinct. */
  lemma MintedIdsDistinct(ids: seq<string>, prefix: string, t: Instant, v: uint32)
    requires v < WrapLimit && |ids| <= 1000 && MintedFrom(ids, prefix, t, v)
    ensures forall i, j :: 0 <= i < j < |ids| ==> ids[i] != ids[j]
  {
    forall i, j | 0 <= i < j < |ids|
      ensures ids[i] != ids[j]
    {
      IndexOrderIdsDistinctInWindow(prefix, t, v, i, j);
    }
  }

  /** The tenant field: the first five bytes of the tenant ID, right-padded with '0'. */
  function TenantField(tenantID: string): (f: string)
    ensures |f| == 5
    ensures forall i :: 0 <= i < 5 ==> f[i] == if i < |tenantID| then tenantID[i] else '0'
  {
    if |tenantID| > 5 then tenantID[..5]
    else if |tenantID| < 5 then tenantID + "00000"[..5 - |tenantID|]
    else tenantID
  }

  /** The three cases of the tenant field, and the empty tenant. */
  lemma TenantFieldCases(tenantID: string)
    ensures |tenantID| >= 5 ==> TenantField(tenantID) == tenantID[..5]
    ensures |tenantID| == 5 ==> TenantField(tenantID) == tenantID
    ensures |tenantID| < 5 ==> TenantField(tenantID) == tenantID + Zeros(5 - |tenantID|)
    ensures TenantField("") == "00000" && TenantField("M") == "M0000"
  {
    var f := TenantField(tenantID);
    if |tenantID| < 5 {
      assert f == tenantID + Zeros(5 - |tenantID|);
    }
    assert TenantField("") == "00000";
    assert TenantField("M") == "M0000";
  }

  /** Tenants that share their first five bytes share the field (the truncation can
      make two tenants indistinguishable). */
  lemma TenantFieldTruncationCollides(a: string, b: string)
    requires |a| >= 5 && |b| >= 5 && a[..5] == b[..5]
    ensures TenantField(a) == TenantField(b)
  {
    TenantFieldCases(a);
    TenantFieldCases(b);
  }

  /** `GenerateOrderIdWithTenantId`: stamp, tenant field, the first four of the six
      zero-padded digits of the nanoseconds modulo 10^6, then the draw as four digits.
      From 1970 up to 2262-04-11, where `UnixNano()` fits in 64 bits, `UnixNano() % 1000000`
      equals `nanosecond % 1000000`. */
  function GenerateOrderIdWithTenantId(tenantID: string, now: Instant, r: Draw): (id: string)
    ensures |id| == 27
    ensures id[..14] == Stamp(now) && id[14..19] == TenantField(tenantID)
    ensures AllDigits(id[19..])
    ensures Value(id[19..23]) == now.nanosecond % 1_000_000 / 100
    ensures Value(id[23..]) == r
  {
    var nanoPart := FormatPadded(now.nanosecond % 1_000_000, 6);
    NanoFragment(now.nanosecond % 1_000_000);
    DrawDigits(r);
    var stamp, tenantPart, randomPart := Stamp(now), TenantField(tenantID), FormatPadded(r, 4);
    TenantIdLayout(stamp, tenantPart, nanoPart[..4], randomPart);
    stamp + tenantPart + nanoPart[..4] + randomPart
  }
}
