/** TAI64N stamps, their order, and the guard that refuses old ones. */
module Timestamp {
  import opened Octets

  const TIMESTAMP_SIZE: nat := 12
  const TAI64_EPOCH: nat := 0x4000_0000_0000_000a
  const GRANULE: nat := 0x100_0000  // 2^24 ns
  const SECOND: nat := 1_000_000_000

  /** A reading of the real-time clock: a non-negative 64-bit `time_t` and the nanoseconds within it. */
  datatype Clock = Clock(sec: nat, nsec: nat) {
    predicate Valid() { sec < 0x8000_0000_0000_0000 && nsec < SECOND }
    function Nanoseconds(): nat { sec * SECOND + nsec }
  }

  function SecondsLabel(now: Clock): nat { (TAI64_EPOCH + now.sec) % U64 }

  /** The nanoseconds with their low 24 bits cleared. */
  function NanosLabel(now: Clock): nat { now.nsec - now.nsec % GRANULE }

  function Stamp(now: Clock): (s: Bytes)
    ensures |s| == TIMESTAMP_SIZE && IsPlain(s)
  {
    BigEndian(SecondsLabel(now), 8) + BigEndian(NanosLabel(now), 4)
  }

  method TimestampInto(out: array<Octet>, now: Clock)
    requires out.Length == TIMESTAMP_SIZE
    modifies out
    ensures out[..] == Stamp(now)
  {
    var seconds, nanoseconds := SecondsLabel(now), NanosLabel(now);
    for i := 0 to 8
      invariant forall j :: 0 <= j < i ==> out[j] == BigEndian(seconds, 8)[j]
    {
      BigEndianAt(seconds, 8, i);
      out[i] := Plain(ShiftRight(seconds, 7 - i) % 256);
    }
    for i := 0 to 4
      invariant forall j :: 0 <= j < 8 ==> out[j] == BigEndian(seconds, 8)[j]
      invariant forall j :: 0 <= j < i ==> out[8 + j] == BigEndian(nanoseconds, 4)[j]
    {
      BigEndianAt(nanoseconds, 4, i);
      out[8 + i] := Plain(ShiftRight(nanoseconds, 3 - i) % 256);
    }
    assert out[..] == out[..8] + out[8..];
    assert out[..8] == BigEndian(seconds, 8) && out[8..] == BigEndian(nanoseconds, 4);
  }

  /** What a stamp says: TAI64 seconds, then the nanoseconds rounded down to a multiple of 2^24. */
  lemma StampValue(now: Clock)
    requires now.Valid()
    ensures var s, ns := BigValue(Stamp(now)[..8]), BigValue(Stamp(now)[8..]);
      && s == 0x4000_0000_0000_000a + now.sec
      && ns % 0x100_0000 == 0 && ns <= now.nsec < ns + 0x100_0000
  {
    hide Power256, BigEndian, BigValue;
    Labels(now);
    BigRoundTrip(SecondsLabel(now), 8);
    BigRoundTrip(NanosLabel(now), 4);
    assert Stamp(now)[..8] == BigEndian(SecondsLabel(now), 8);
    assert Stamp(now)[8..] == BigEndian(NanosLabel(now), 4);
  }

  // ----------------------------------------------------------------- order

  predicate Greater(o: Octet, p: Octet) {
    o.Plain? && p.Plain? && o.value > p.value
  }

  /** Byte-lexicographic order. */
  predicate After(a: Bytes, b: Bytes)
    requires |a| == |b|
  {
    a != [] && if a[0] != b[0] then Greater(a[0], b[0]) else After(a[1..], b[1..])
  }

  method TimestampAfter(a: Bytes, b: Bytes) returns (after: bool)
    requires |a| == |b| == TIMESTAMP_SIZE
    ensures after == After(a, b)
  {
    for i := 0 to TIMESTAMP_SIZE
      invariant After(a, b) == After(a[i..], b[i..])
    {
      if a[i] != b[i] {
        return Greater(a[i], b[i]);
      }
      assert a[i..][1..] == a[i + 1..] && b[i..][1..] == b[i + 1..];
    }
    return false;
  }

  /** The order of two concatenations is the order of their first parts, then of their second parts. */
  lemma {:induction false} AfterConcat(a: Bytes, b: Bytes, c: Bytes, d: Bytes)
    requires |a| == |b| && |c| == |d|
    ensures After(a + c, b + d) <==> After(a, b) || (a == b && After(c, d))
  {
    if a == [] {
      assert a + c == c && b + d == d;
    } else {
      assert (a + c)[1..] == a[1..] + c && (b + d)[1..] == b[1..] + d;
      AfterConcat(a[1..], b[1..], c, d);
    }
  }

  /** Byte-lexicographic comparison is comparison of the big-endian numbers. */
  lemma {:induction false} AfterIsNumeric(a: Bytes, b: Bytes)
    requires |a| == |b| && IsPlain(a) && IsPlain(b)
    ensures After(a, b) <==> BigValue(a) > BigValue(b)
  {
    if a != [] {
      var n := |a| - 1;
      AfterIsNumeric(a[..n], b[..n]);
      AfterConcat(a[..n], b[..n], a[n..], b[n..]);
      assert a == a[..n] + a[n..] && b == b[..n] + b[n..];
      assert After(a[n..], b[n..]) <==> a[n].value > b[n].value;
      if BigValue(a[..n]) == BigValue(b[..n]) {
        BigInverse(a[..n]);
        BigInverse(b[..n]);
      }
    }
  }

  lemma AfterValues(t: Clock, u: Clock)
    requires t.Valid() && u.Valid()
    ensures After(Stamp(u), Stamp(t)) <==>
      u.sec > t.sec || (u.sec == t.sec && NanosLabel(u) > NanosLabel(t))
  {
    Labels(t);
    Labels(u);
    AfterConcat(BigEndian(SecondsLabel(u), 8), BigEndian(SecondsLabel(t), 8),
                BigEndian(NanosLabel(u), 4), BigEndian(NanosLabel(t), 4));
    NumbersOrdered(SecondsLabel(u), SecondsLabel(t), 8);
    NumbersOrdered(NanosLabel(u), NanosLabel(t), 4);
  }

  /** Neither label overflows its field. */
  lemma Labels(t: Clock)
    requires t.Valid()
    ensures SecondsLabel(t) == TAI64_EPOCH + t.sec < Power256(8)
    ensures NanosLabel(t) < Power256(4)
  {
    WordSizes();
  }

  lemma NumbersOrdered(v: nat, w: nat, n: nat)
    requires v < Power256(n) && w < Power256(n)
    ensures After(BigEndian(v, n), BigEndian(w, n)) <==> v > w
    ensures BigEndian(v, n) == BigEndian(w, n) <==> v == w
  {
    BigRoundTrip(v, n);
    BigRoundTrip(w, n);
    AfterIsNumeric(BigEndian(v, n), BigEndian(w, n));
  }

  lemma NanosLabels(t: Clock, u: Clock)
    ensures t.nsec <= u.nsec ==> NanosLabel(t) <= NanosLabel(u)
    ensures t.nsec + GRANULE <= u.nsec ==> NanosLabel(t) < NanosLabel(u)
  {
  }

  /** A clock that does not run backwards never produces an earlier stamp. */
  lemma StampsFollowTheClock(t: Clock, u: Clock)
    requires t.Valid() && u.Valid() && t.Nanoseconds() <= u.Nanoseconds()
    ensures !After(Stamp(t), Stamp(u))
  {
    AfterValues(u, t);
    NanosLabels(t, u);
  }

  /** Readings at least 2^24 ns apart give strictly ordered stamps. */
  lemma StampsSeparate(t: Clock, u: Clock)
    requires t.Valid() && u.Valid() && t.Nanoseconds() + GRANULE <= u.Nanoseconds()
    ensures After(Stamp(u), Stamp(t))
  {
    AfterValues(t, u);
    NanosLabels(t, u);
  }

  /** Which readings share a stamp: exactly those in the same 2^24 ns granule of the same second. */
  lemma StampsCoincide(t: Clock, u: Clock)
    requires t.Valid() && u.Valid()
    ensures Stamp(t) == Stamp(u) <==> t.sec == u.sec && t.nsec / GRANULE == u.nsec / GRANULE
  {
    hide Power256;
    Labels(t);
    Labels(u);
    NumbersOrdered(SecondsLabel(t), SecondsLabel(u), 8);
    NumbersOrdered(NanosLabel(t), NanosLabel(u), 4);
    assert Stamp(t)[..8] == BigEndian(SecondsLabel(t), 8) && Stamp(t)[8..] == BigEndian(NanosLabel(t), 4);
    assert Stamp(u)[..8] == BigEndian(SecondsLabel(u), 8) && Stamp(u)[8..] == BigEndian(NanosLabel(u), 4);
    assert NanosLabel(t) == GRANULE * (t.nsec / GRANULE) && NanosLabel(u) == GRANULE * (u.nsec / GRANULE);
  }

  // ----------------------------------------------------------------- guard

  /** The greatest stamp accepted so far, if any. */
  type Greatest = Option<Bytes>

  predicate Fresh(g: Greatest, stamp: Bytes)
    requires |stamp| == TIMESTAMP_SIZE && (g.Some? ==> |g.value| == TIMESTAMP_SIZE)
  {
    g.None? || After(stamp, g.value)
  }

  class TimestampGuard {
    var greatest: Bytes
    var seen: bool

    ghost predicate Valid() reads this { |greatest| == TIMESTAMP_SIZE }

    ghost function Value(): Greatest reads this { if seen then Some(greatest) else None }

    constructor ()
      ensures Valid() && Value() == None
    {
      greatest, seen := Zeros(TIMESTAMP_SIZE), false;
    }

    /** Records and accepts only a strictly greater stamp. */
    method Accept(stamp: Bytes) returns (ok: bool)
      requires Valid() && |stamp| == TIMESTAMP_SIZE
      modifies this
      ensures Valid()
      ensures ok == Fresh(old(Value()), stamp)
      ensures Value() == if ok then Some(stamp) else old(Value())
      ensures !ok ==> unchanged(this)
    {
      if seen {
        var after := TimestampAfter(stamp, greatest);
        if !after {
          return false;
        }
      }
      greatest, seen := stamp, true;
      return true;
    }
  }

  /** The stamps accepted out of `stamps`, in order, by a guard that starts at `g`. */
  function Accepted(g: Greatest, stamps: seq<Bytes>): (r: seq<Bytes>)
    requires forall s | s in stamps :: |s| == TIMESTAMP_SIZE
    requires g.Some? ==> |g.value| == TIMESTAMP_SIZE
    ensures forall i :: 0 <= i < |r| ==> |r[i]| == TIMESTAMP_SIZE
    decreases |stamps|
  {
    if stamps == [] then []
    else if Fresh(g, stamps[0]) then [stamps[0]] + Accepted(Some(stamps[0]), stamps[1..])
    else Accepted(g, stamps[1..])
  }

  lemma {:induction false} AfterTransitive(a: Bytes, b: Bytes, c: Bytes)
    requires |a| == |b| == |c| && After(a, b) && After(b, c)
    ensures After(a, c)
  {
    if a[0] == b[0] && b[0] == c[0] {
      AfterTransitive(a[1..], b[1..], c[1..]);
    }
  }

  lemma {:induction false} AfterIrreflexive(a: Bytes)
    ensures !After(a, a)
  {
    if a != [] {
      AfterIrreflexive(a[1..]);
    }
  }

  ghost predicate Increasing(stamps: seq<Bytes>)
    requires forall i :: 0 <= i < |stamps| ==> |stamps[i]| == TIMESTAMP_SIZE
  {
    forall i, j :: 0 <= i < j < |stamps| ==> After(stamps[j], stamps[i])
  }

  ghost predicate AllFresh(g: Greatest, stamps: seq<Bytes>)
    requires forall i :: 0 <= i < |stamps| ==> |stamps[i]| == TIMESTAMP_SIZE
    requires g.Some? ==> |g.value| == TIMESTAMP_SIZE
  {
    forall i :: 0 <= i < |stamps| ==> Fresh(g, stamps[i])
  }

  /** Over any run the accepted stamps are strictly increasing and all newer than where the guard stood,
      so none is ever accepted twice. */
  lemma {:induction false} AcceptedIncrease(g: Greatest, stamps: seq<Bytes>)
    requires forall s | s in stamps :: |s| == TIMESTAMP_SIZE
    requires g.Some? ==> |g.value| == TIMESTAMP_SIZE
    ensures Increasing(Accepted(g, stamps)) && AllFresh(g, Accepted(g, stamps))
    decreases |stamps|
  {
    if stamps == [] {
    } else if !Fresh(g, stamps[0]) {
      AcceptedIncrease(g, stamps[1..]);
      assert Accepted(g, stamps) == Accepted(g, stamps[1..]);
    } else {
      var h := Some(stamps[0]);
      var rest := Accepted(h, stamps[1..]);
      AcceptedIncrease(h, stamps[1..]);
      forall i | 0 <= i < |rest| ensures After(rest[i], stamps[0]) && Fresh(g, rest[i]) {
        assert Fresh(h, rest[i]);
        if g.Some? {
          AfterTransitive(rest[i], stamps[0], g.value);
        }
      }
      assert Accepted(g, stamps) == [stamps[0]] + rest;
    }
  }

  /** The shape of a stamp a clock produced. */
  predicate IsStamp(s: Bytes) { |s| == TIMESTAMP_SIZE && IsPlain(s) }

  /** Where the guard stands after a run. */
  function GuardAfter(g: Greatest, stamps: seq<Bytes>): (r: Greatest)
    requires (forall s | s in stamps :: IsStamp(s)) && (g.Some? ==> IsStamp(g.value))
    ensures r.Some? ==> IsStamp(r.value)
    decreases |stamps|
  {
    if stamps == [] then g
    else
      assert IsStamp(stamps[0]);
      GuardAfter(if Fresh(g, stamps[0]) then Some(stamps[0]) else g, stamps[1..])
  }

  /** The guard ends at the greatest of everything it was shown: none of it is fresh any more, and where it
      stands is where it stood or one of the stamps shown. */
  lemma {:induction false} GuardIsMaximum(g: Greatest, stamps: seq<Bytes>)
    requires (forall s | s in stamps :: IsStamp(s)) && (g.Some? ==> IsStamp(g.value))
    ensures forall s | s in stamps :: !Fresh(GuardAfter(g, stamps), s)
    ensures g.Some? ==> !Fresh(GuardAfter(g, stamps), g.value)
    ensures GuardAfter(g, stamps) == g || (GuardAfter(g, stamps).Some? && GuardAfter(g, stamps).value in stamps)
    decreases |stamps|
  {
    hide After;
    if stamps == [] {
      if g.Some? {
        AfterIrreflexive(g.value);
      }
    } else {
      assert stamps[0] in stamps;
      var h := if Fresh(g, stamps[0]) then Some(stamps[0]) else g;
      GuardIsMaximum(h, stamps[1..]);
      var end := GuardAfter(h, stamps[1..]);
      if !Fresh(g, stamps[0]) {
        NotFresher(end, g.value, stamps[0]);
      } else if g.Some? {
        NotBoth(stamps[0], g.value);
        NotFresher(end, stamps[0], g.value);
      }
      forall s | s in stamps ensures !Fresh(end, s) {
        assert s == stamps[0] || s in stamps[1..];
      }
    }
  }

  lemma NotBoth(a: Bytes, b: Bytes)
    requires IsStamp(a) && IsStamp(b) && After(a, b)
    ensures !After(b, a)
  {
    AfterIsNumeric(a, b);
    AfterIsNumeric(b, a);
  }

  /** What is no later than something stale is stale. */
  lemma NotFresher(g: Greatest, a: Bytes, b: Bytes)
    requires IsStamp(a) && IsStamp(b) && (g.Some? ==> IsStamp(g.value)) && !Fresh(g, a) && !After(b, a)
    ensures !Fresh(g, b)
  {
    hide After;
    AfterIsNumeric(a, g.value);
    AfterIsNumeric(b, a);
    AfterIsNumeric(b, g.value);
  }
}
