/** Full-tunnel routing on the client: three routes added in order, taken out in the opposite order, with a
    failure possible at every command. */
module Routes {
  import opened Octets

  const ADDRESS_BITS: nat := 32
  const ADDRESSES: nat := 0x1_0000_0000

  /** The first `len` bits of an address, as a number. */
  datatype Prefix = Prefix(bits: nat, len: nat) {
    predicate Valid() { len <= ADDRESS_BITS }
  }

  datatype Hop = Hop(dev: string, gateway: Option<nat>)

  /** At most one route per prefix, as the kernel keeps them. */
  type Table = map<Prefix, Hop>

  /** `a` without its `k` low bits. */
  function DropBits(a: nat, k: nat): nat { if k == 0 then a else DropBits(a / 2, k - 1) }

  function PrefixOf(a: nat, len: nat): (p: Prefix)
    requires len <= ADDRESS_BITS
  {
    Prefix(DropBits(a, ADDRESS_BITS - len), len)
  }

  predicate Matches(p: Prefix, a: nat) { p.len <= ADDRESS_BITS && p == PrefixOf(a, p.len) }

  const DEFAULT := Prefix(0, 0)
  const LOWER_HALF := Prefix(0, 1)  // 0.0.0.0/1
  const UPPER_HALF := Prefix(1, 1)  // 128.0.0.0/1

  // ------------------------------------------------------------------- lookup

  /** The longest prefix of the table that matches, among those of at most `len` bits. */
  function BestUpTo(t: Table, a: nat, len: nat): (p: Option<Prefix>)
    requires len <= ADDRESS_BITS
    ensures p.Some? ==> p.value in t && Matches(p.value, a) && p.value.len <= len
  {
    if PrefixOf(a, len) in t then Some(PrefixOf(a, len))
    else if len == 0 then None
    else BestUpTo(t, a, len - 1)
  }

  function Best(t: Table, a: nat): (p: Option<Prefix>)
    ensures p.Some? ==> p.value in t && Matches(p.value, a)
  {
    BestUpTo(t, a, ADDRESS_BITS)
  }

  function Lookup(t: Table, a: nat): (h: Option<Hop>) {
    if Best(t, a).Some? then Some(t[Best(t, a).value]) else None
  }

  lemma {:induction false} BestUpToIsLongest(t: Table, a: nat, len: nat, q: Prefix)
    requires len <= ADDRESS_BITS && q in t && Matches(q, a) && q.len <= len
    ensures BestUpTo(t, a, len).Some? && q.len <= BestUpTo(t, a, len).value.len
  {
    if PrefixOf(a, len) !in t {
      BestUpToIsLongest(t, a, len - 1, q);
    }
  }

  /** `p` is the one route longest-prefix matching selects. */
  ghost predicate Selected(t: Table, a: nat, p: Prefix) {
    && p in t && Matches(p, a)
    && forall q | q in t && Matches(q, a) :: q.len <= p.len
  }

  lemma BestIsSelected(t: Table, a: nat, p: Prefix)
    ensures Best(t, a) == Some(p) <==> Selected(t, a, p)
  {
    forall q | q in t && Matches(q, a) ensures Best(t, a).Some? && q.len <= Best(t, a).value.len {
      BestUpToIsLongest(t, a, ADDRESS_BITS, q);
    }
  }

  // ---------------------------------------------------------- the three routes

  /** Which of the three routes are in. */
  datatype Installed = Installed(host: bool, lower: bool, upper: bool)

  const NONE := Installed(false, false, false)
  const ALL := Installed(true, true, true)

  function HostRoute(server: nat): Prefix { Prefix(server, ADDRESS_BITS) }

  /** The original table with some of the three routes added. */
  function With(t: Table, server: nat, hop: Hop, tun: Hop, i: Installed): (r: Table) {
    var t1 := if i.host then t[HostRoute(server) := hop] else t;
    var t2 := if i.lower then t1[LOWER_HALF := tun] else t1;
    if i.upper then t2[UPPER_HALF := tun] else t2
  }

  /** None of the routes that are in was there before: the kernel refuses to add one twice. */
  predicate Fits(t: Table, server: nat, i: Installed) {
    && (i.host ==> HostRoute(server) !in t)
    && (i.lower ==> LOWER_HALF !in t)
    && (i.upper ==> UPPER_HALF !in t)
  }

  lemma {:induction false} DropAllBits(a: nat, k: nat)
    requires a < 2 * Power2(k)
    ensures DropBits(a, k) == if a < Power2(k) then 0 else 1
  {
    if k > 0 {
      DropAllBits(a / 2, k - 1);
    }
  }

  lemma Powers()
    ensures Power2(31) == 0x8000_0000 && Power2(32) == ADDRESSES
  {
    ByteBits();
    assert Power2(12) == 16 * Power2(8);
    assert Power2(16) == 16 * Power2(12);
    assert Power2(20) == 16 * Power2(16);
    assert Power2(24) == 16 * Power2(20);
    assert Power2(28) == 16 * Power2(24);
    assert Power2(31) == 8 * Power2(28);
  }

  lemma Halves(a: nat)
    requires a < ADDRESSES
    ensures PrefixOf(a, 1) == (if a < 0x8000_0000 then LOWER_HALF else UPPER_HALF)
    ensures PrefixOf(a, 0) == DEFAULT && PrefixOf(a, ADDRESS_BITS) == HostRoute(a)
  {
    Powers();
    DropAllBits(a, 31);
    DropAllBits(a, 32);
  }

  /** The half that covers an address is in. */
  predicate HalfIn(i: Installed, a: nat) { if a < 0x8000_0000 then i.lower else i.upper }

  /** With these routes in, the server is reached through the tunnel: its host route is out, the half that
      covers it is in, and no route to it was more specific than that half. */
  predicate Captured(t: Table, server: nat, hop: Hop, tun: Hop, i: Installed)
    requires Best(t, server).Some?
  {
    tun != hop && !i.host && HalfIn(i, server) && Best(t, server).value.len <= 1
  }

  /** The server keeps its next hop exactly while it is not captured. */
  lemma ServerHop(t: Table, server: nat, hop: Hop, tun: Hop, i: Installed)
    requires server < ADDRESSES && Lookup(t, server) == Some(hop) && Fits(t, server, i)
    ensures Lookup(With(t, server, hop, tun, i), server) == Some(hop) <==> !Captured(t, server, hop, tun, i)
  {
    var t', p := With(t, server, hop, tun, i), Best(t, server).value;
    Halves(server);
    BestIsSelected(t, server, p);
    if i.host {
      BestIsSelected(t', server, HostRoute(server));
    } else if HalfIn(i, server) && p.len <= 1 {
      assert Selected(t', server, PrefixOf(server, 1)) by { OnlyHalves(t, server, hop, tun, i); }
      BestIsSelected(t', server, PrefixOf(server, 1));
    } else {
      assert Selected(t', server, p) by { OnlyHalves(t, server, hop, tun, i); }
      BestIsSelected(t', server, p);
    }
  }

  /** Without the host route, what was added matches only as a half. */
  lemma OnlyHalves(t: Table, a: nat, hop: Hop, tun: Hop, i: Installed)
    requires a < ADDRESSES && !i.host
    ensures var t' := With(t, a, hop, tun, i);
      && (forall q | q in t' && Matches(q, a) :: q in t || (q == PrefixOf(a, 1) && HalfIn(i, a)))
      && (HalfIn(i, a) ==> PrefixOf(a, 1) in t')
  {
    Halves(a);
  }

  /** With all three routes in, no destination depends on the old default route. */
  lemma DefaultIsUnused(t: Table, server: nat, hop: Hop, tun: Hop, a: nat)
    requires a < ADDRESSES
    ensures var t' := With(t, server, hop, tun, ALL);
      Best(t', a).Some? && Best(t', a).value.len >= 1 && Lookup(t' - {DEFAULT}, a) == Lookup(t', a)
  {
    var t' := With(t, server, hop, tun, ALL);
    Halves(a);
    assert PrefixOf(a, 1) in t' && Matches(PrefixOf(a, 1), a);
    BestUpToIsLongest(t', a, ADDRESS_BITS, PrefixOf(a, 1));
    var p := Best(t', a).value;
    BestIsSelected(t', a, p);
    assert Selected(t' - {DEFAULT}, a, p);
    BestIsSelected(t' - {DEFAULT}, a, p);
  }

  /** Full tunnel: with all three routes in, the server keeps its next hop, destinations with a route more specific
      than half the address space keep theirs, and everything else goes into the tunnel. */
  lemma FullTunnel(t: Table, server: nat, hop: Hop, tun: Hop, a: nat)
    requires a < ADDRESSES && server < ADDRESSES && Fits(t, server, ALL)
    ensures Lookup(With(t, server, hop, tun, ALL), a) ==
      if a == server then Some(hop)
      else if Best(t, a).Some? && Best(t, a).value.len > 1 then Lookup(t, a)
      else Some(tun)
  {
    var t', half := With(t, server, hop, tun, ALL), PrefixOf(a, 1);
    Halves(a);
    Halves(server);
    if a == server {
      BestIsSelected(t', a, HostRoute(server));
    } else if Best(t, a).Some? && Best(t, a).value.len > 1 {
      var p := Best(t, a).value;
      BestIsSelected(t, a, p);
      assert Selected(t', a, p);
      BestIsSelected(t', a, p);
    } else {
      forall q | q in t && Matches(q, a) ensures q.len <= 1 {
        BestUpToIsLongest(t, a, ADDRESS_BITS, q);
      }
      assert Selected(t', a, half);
      BestIsSelected(t', a, half);
    }
  }

  // ------------------------------------------------------------------ commands

  datatype Command = Add(prefix: Prefix, hop: Hop) | Del(prefix: Prefix, hop: Hop)

  /** Whether a command has an effect, given that the tool itself works: a route is added once, and deleted as
      it was added. */
  predicate Takes(t: Table, c: Command) {
    match c
    case Add(p, _) => p !in t
    case Del(p, h) => p in t && t[p] == h
  }

  function Effect(t: Table, c: Command): Table {
    match c
    case Add(p, h) => t[p := h]
    case Del(p, _) => t - {p}
  }

  /** The machine whose routing table is changed, with every state the table went through. */
  class Host {
    var table: Table
    ghost var trace: seq<Table>

    constructor (table: Table)
      ensures this.table == table && trace == [table]
    {
      this.table := table;
      trace := [table];
    }

    /** `works` is whether the tool could be run at all. */
    method Run(c: Command, works: bool) returns (ok: bool)
      modifies this
      ensures ok == (works && Takes(old(table), c))
      ensures table == if ok then Effect(old(table), c) else old(table)
      ensures trace == old(trace) + [table]
    {
      ok := works && Takes(table, c);
      if ok {
        table := Effect(table, c);
      }
      trace := trace + [table];
    }
  }

  /** Changes that were made, each with the command that reverses it. */
  class ChangeSet {
    const host: Host
    var undo: seq<Command>

    constructor (host: Host)
      ensures this.host == host && undo == []
    {
      this.host := host;
      undo := [];
    }

    /** A change that did not take is not recorded. */
    method AddChange(apply: Command, reverse: Command, works: bool) returns (ok: bool)
      modifies this, host
      ensures ok == (works && Takes(old(host.table), apply))
      ensures undo == if ok then old(undo) + [reverse] else old(undo)
      ensures host.table == if ok then Effect(old(host.table), apply) else old(host.table)
      ensures host.trace == old(host.trace) + [host.table]
    {
      ok := host.Run(apply, works);
      if ok {
        undo := undo + [reverse];
      }
    }

    /** Runs the reversing commands last-first, whatever becomes of each; those at positions `failed` fail. */
    method UndoAll(failed: set<nat>)
      modifies this, host
      ensures undo == []
      ensures host.trace == old(host.trace) + Unwound(old(host.table), old(undo), failed)
      ensures host.table == Final(old(host.table), old(undo), failed)
    {
      ghost var all, start := undo, host.table;
      while undo != []
        invariant host.trace + Unwound(host.table, undo, failed) == old(host.trace) + Unwound(start, all, failed)
        invariant Final(host.table, undo, failed) == Final(start, all, failed)
        decreases |undo|
      {
        var n := |undo| - 1;
        ghost var u, before, t := undo, host.trace, host.table;
        var ok := host.Run(undo[n], n !in failed);
        undo := undo[..n];
        assert Unwound(t, u, failed) == [host.table] + Unwound(host.table, undo, failed);
        assert before + Unwound(t, u, failed) == host.trace + Unwound(host.table, undo, failed);
      }
    }
  }

  function AfterUndo(t: Table, c: Command, works: bool): Table { if works && Takes(t, c) then Effect(t, c) else t }

  /** The states the table goes through while `undo` is run last-first, where positions `failed` fail. */
  function Unwound(t: Table, undo: seq<Command>, failed: set<nat>): (ts: seq<Table>)
    decreases |undo|
  {
    if undo == [] then []
    else
      var n := |undo| - 1;
      var t' := AfterUndo(t, undo[n], n !in failed);
      [t'] + Unwound(t', undo[..n], failed)
  }

  function Final(t: Table, undo: seq<Command>, failed: set<nat>): (t': Table)
    decreases |undo|
  {
    if undo == [] then t
    else
      var n := |undo| - 1;
      Final(AfterUndo(t, undo[n], n !in failed), undo[..n], failed)
  }

  // ------------------------------------------------- installing and unwinding

  function Reversals(server: nat, hop: Hop, tun: Hop): seq<Command> {
    [Del(HostRoute(server), hop), Del(LOWER_HALF, tun), Del(UPPER_HALF, tun)]
  }

  /** The original table was reached for the server, in every state. */
  ghost predicate ServerKept(ts: seq<Table>, server: nat, hop: Hop) {
    forall t | t in ts :: Lookup(t, server) == Some(hop)
  }

  lemma UndoHost(t: Table, server: nat, hop: Hop, tun: Hop, i: Installed, works: bool)
    requires server < ADDRESSES && Fits(t, server, i) && i.host
    ensures AfterUndo(With(t, server, hop, tun, i), Del(HostRoute(server), hop), works)
      == With(t, server, hop, tun, if works then i.(host := false) else i)
  {
  }

  lemma UndoLower(t: Table, server: nat, hop: Hop, tun: Hop, i: Installed, works: bool)
    requires Fits(t, server, i) && i.lower
    ensures AfterUndo(With(t, server, hop, tun, i), Del(LOWER_HALF, tun), works)
      == With(t, server, hop, tun, if works then i.(lower := false) else i)
  {
  }

  lemma UndoUpper(t: Table, server: nat, hop: Hop, tun: Hop, i: Installed, works: bool)
    requires Fits(t, server, i) && i.upper
    ensures AfterUndo(With(t, server, hop, tun, i), Del(UPPER_HALF, tun), works)
      == With(t, server, hop, tun, if works then i.(upper := false) else i)
  {
  }

  /** The host route's reversal, run last. */
  lemma HostUndone(t: Table, server: nat, hop: Hop, tun: Hop, i: Installed, failed: set<nat>)
    requires server < ADDRESSES && Fits(t, server, i) && i.host
    ensures var undo, t' := Reversals(server, hop, tun)[..1], With(t, server, hop, tun, i);
      var t0 := With(t, server, hop, tun, i.(host := 0 in failed));
      Unwound(t', undo, failed) == [t0] && Final(t', undo, failed) == t0
  {
    hide With;
    var undo, t' := Reversals(server, hop, tun)[..1], With(t, server, hop, tun, i);
    UndoHost(t, server, hop, tun, i, 0 !in failed);
    var t0 := AfterUndo(t', undo[0], 0 !in failed);
    assert undo[..0] == [];
    assert Unwound(t', undo, failed) == [t0] + Unwound(t0, [], failed);
  }

  /** Before it, the lower half's. */
  lemma LowerUndone(t: Table, server: nat, hop: Hop, tun: Hop, i: Installed, failed: set<nat>)
    requires server < ADDRESSES && Fits(t, server, i) && i.host && i.lower
    ensures var undo, t' := Reversals(server, hop, tun)[..2], With(t, server, hop, tun, i);
      var i1 := i.(lower := 1 in failed);
      var t1, t0 := With(t, server, hop, tun, i1), With(t, server, hop, tun, i1.(host := 0 in failed));
      Unwound(t', undo, failed) == [t1, t0] && Final(t', undo, failed) == t0
  {
    hide With;
    var undo, t' := Reversals(server, hop, tun)[..2], With(t, server, hop, tun, i);
    var i1 := i.(lower := 1 in failed);
    var t1 := With(t, server, hop, tun, i1);
    UndoLower(t, server, hop, tun, i, 1 !in failed);
    HostUndone(t, server, hop, tun, i1, failed);
    assert undo[..1] == Reversals(server, hop, tun)[..1];
    assert Unwound(t', undo, failed) == [t1] + Unwound(t1, undo[..1], failed);
  }

  /** What teardown leaves behind: exactly the routes whose reversal failed. */
  lemma TeardownStates(t: Table, server: nat, hop: Hop, tun: Hop, failed: set<nat>)
    requires server < ADDRESSES && Fits(t, server, ALL)
    ensures var undo, t' := Reversals(server, hop, tun), With(t, server, hop, tun, ALL);
      && Unwound(t', undo, failed) ==
         [With(t, server, hop, tun, Installed(true, true, 2 in failed)),
          With(t, server, hop, tun, Installed(true, 1 in failed, 2 in failed)),
          With(t, server, hop, tun, Installed(0 in failed, 1 in failed, 2 in failed))]
      && Final(t', undo, failed) == With(t, server, hop, tun, Installed(0 in failed, 1 in failed, 2 in failed))
  {
    hide With;
    var undo, t' := Reversals(server, hop, tun), With(t, server, hop, tun, ALL);
    var i2 := Installed(true, true, 2 in failed);
    var t2 := With(t, server, hop, tun, i2);
    UndoUpper(t, server, hop, tun, ALL, 2 !in failed);
    LowerUndone(t, server, hop, tun, i2, failed);
    assert Unwound(t', undo, failed) == [t2] + Unwound(t2, undo[..2], failed);
  }

  /** The table is the original one exactly when none of the routes is in. */
  lemma Leftover(t: Table, server: nat, hop: Hop, tun: Hop, i: Installed)
    requires server < ADDRESSES && Fits(t, server, i)
    ensures With(t, server, hop, tun, i) == t <==> i == NONE
  {
    var t' := With(t, server, hop, tun, i);
    assert (i.host ==> HostRoute(server) in t') && (i.lower ==> LOWER_HALF in t') && (i.upper ==> UPPER_HALF in t');
  }

  /** Of states that all keep the server's next hop but perhaps the last, that one decides. */
  lemma KeptUntilLast(t: Table, server: nat, hop: Hop, tun: Hop, before: seq<Table>, last: Installed)
    requires server < ADDRESSES && Lookup(t, server) == Some(hop) && Fits(t, server, last)
    requires ServerKept(before, server, hop)
    ensures ServerKept(before + [With(t, server, hop, tun, last)], server, hop)
      <==> !Captured(t, server, hop, tun, last)
  {
    hide With, Lookup, Captured;
    ServerHop(t, server, hop, tun, last);
    var ts := before + [With(t, server, hop, tun, last)];
    assert ts[|before|] in ts;
  }

  /** Throughout teardown the server is reached as before, unless the host route comes out while the half that
      covers the server stays in; and the table ends up as it was exactly when every reversal took. */
  lemma TeardownExactly(t: Table, server: nat, hop: Hop, tun: Hop, failed: set<nat>)
    requires server < ADDRESSES && Fits(t, server, ALL) && Lookup(t, server) == Some(hop)
    ensures var undo, t' := Reversals(server, hop, tun), With(t, server, hop, tun, ALL);
      && (ServerKept(Unwound(t', undo, failed), server, hop) <==>
           || 0 in failed || (if server < 0x8000_0000 then 1 else 2) !in failed
           || Best(t, server).value.len > 1 || tun == hop)
      && (Final(t', undo, failed) == t <==> 0 !in failed && 1 !in failed && 2 !in failed)
  {
    hide With, Lookup;
    var i2, i1, i0 := Installed(true, true, 2 in failed), Installed(true, 1 in failed, 2 in failed),
                      Installed(0 in failed, 1 in failed, 2 in failed);
    var t2, t1 := With(t, server, hop, tun, i2), With(t, server, hop, tun, i1);
    TeardownStates(t, server, hop, tun, failed);
    InstallKeepsServer(t, server, hop, tun, i2);
    InstallKeepsServer(t, server, hop, tun, i1);
    KeptUntilLast(t, server, hop, tun, [t2, t1], i0);
    Leftover(t, server, hop, tun, i0);
  }

  /** What unwinding leaves when `n` of the three routes had got in. */
  function Left(n: nat, failed: set<nat>): Installed
    requires n <= 2
  {
    Installed(n >= 1 && 0 in failed, n >= 2 && 1 in failed, false)
  }

  /** A first half that could not be added: the host route comes out again, or does not. Either way the server
      is reached as before. */
  lemma HostTeardown(t: Table, server: nat, hop: Hop, tun: Hop, failed: set<nat>)
    requires server < ADDRESSES && Fits(t, server, NONE.(host := true)) && Lookup(t, server) == Some(hop)
    ensures var t1, undo := With(t, server, hop, tun, NONE.(host := true)), Reversals(server, hop, tun)[..1];
      && Final(t1, undo, failed) == With(t, server, hop, tun, Left(1, failed))
      && ServerKept([t1] + Unwound(t1, undo, failed), server, hop)
      && (Final(t1, undo, failed) == t <==> 0 !in failed)
  {
    hide With, Lookup;
    var i1, i0 := NONE.(host := true), Left(1, failed);
    HostUndone(t, server, hop, tun, i1, failed);
    InstallKeepsServer(t, server, hop, tun, i1);
    KeptUntilLast(t, server, hop, tun, [With(t, server, hop, tun, i1)], i0);
    Leftover(t, server, hop, tun, i0);
  }

  /** A second half that could not be added: the server is reached as before in every state, unless the first
      half stays in, covers it, and the host route comes out. */
  lemma PartialTeardown(t: Table, server: nat, hop: Hop, tun: Hop, failed: set<nat>)
    requires server < ADDRESSES && Fits(t, server, ALL.(upper := false)) && Lookup(t, server) == Some(hop)
    ensures var t2, undo := With(t, server, hop, tun, ALL.(upper := false)), Reversals(server, hop, tun)[..2];
      && Final(t2, undo, failed) == With(t, server, hop, tun, Left(2, failed))
      && (ServerKept([t2, t2] + Unwound(t2, undo, failed), server, hop) <==>
           0 in failed || 1 !in failed || server >= 0x8000_0000 || Best(t, server).value.len > 1 || tun == hop)
      && (Final(t2, undo, failed) == t <==> 0 !in failed && 1 !in failed)
  {
    hide With, Lookup;
    var i2, i0 := ALL.(upper := false), Left(2, failed);
    var i1 := i2.(lower := 1 in failed);
    var t2, t1, t0 := With(t, server, hop, tun, i2), With(t, server, hop, tun, i1), With(t, server, hop, tun, i0);
    LowerUndone(t, server, hop, tun, i2, failed);
    InstallKeepsServer(t, server, hop, tun, i2);
    InstallKeepsServer(t, server, hop, tun, i1);
    KeptUntilLast(t, server, hop, tun, [t2, t2, t1], i0);
    assert [t2, t2, t1] + [t0] == [t2, t2] + [t1, t0];
    Leftover(t, server, hop, tun, i0);
  }

  /** The failing inputs exist: a machine with nothing but a default route, a server in the lower half, and a
      lower half whose reversal alone fails. */
  lemma TeardownCanCapture()
    ensures var hop, tun := Hop("eth0", Some(1)), Hop("tun0", None);
      var t := map[DEFAULT := hop];
      && Lookup(t, 42) == Some(hop) && Fits(t, 42, ALL)
      && !ServerKept(Unwound(With(t, 42, hop, tun, ALL), Reversals(42, hop, tun), {1}), 42, hop)
      && !ServerKept(Unwound(With(t, 42, hop, tun, ALL.(upper := false)), Reversals(42, hop, tun)[..2], {1}), 42, hop)
  {
    hide With, Unwound;
    var hop, tun := Hop("eth0", Some(1)), Hop("tun0", None);
    var t := map[DEFAULT := hop];
    Halves(42);
    assert Selected(t, 42, DEFAULT);
    BestIsSelected(t, 42, DEFAULT);
    TeardownExactly(t, 42, hop, tun, {1});
    PartialTeardown(t, 42, hop, tun, {1});
    InstallKeepsServer(t, 42, hop, tun, ALL.(upper := false));
  }

  /** How many of the three routes get in: each waits for the one before it. */
  function Reached(t: Table, server: nat, works: seq<bool>): (n: nat)
    requires |works| == 3
    ensures n <= 3
  {
    if !works[0] || HostRoute(server) in t then 0
    else if !works[1] || LOWER_HALF in t then 1
    else if !works[2] || UPPER_HALF in t then 2
    else 3
  }

  /** Installs the host route, then the two halves; a failure undoes what was done so far and gives nothing.
      `works` says which additions the tool carries out, `failed` which reversals it does not. Whatever fails,
      the server is reached as before in every state, except when the second half cannot be added, the first
      half covers the server and stays in, and the host route comes out. */
  method InstallClientRoutes(host: Host, tun: Hop, server: nat, works: seq<bool>, failed: set<nat>)
    returns (changes: ChangeSet?)
    requires server < ADDRESSES && |works| == 3
    modifies host
    ensures changes != null <==>
      Lookup(old(host.table), server).Some? && Reached(old(host.table), server, works) == 3
    ensures changes != null ==>
      var hop := Lookup(old(host.table), server).value;
      && fresh(changes) && changes.host == host && changes.undo == Reversals(server, hop, tun)
      && host.table == With(old(host.table), server, hop, tun, ALL)
    ensures Lookup(old(host.table), server).None? ==> unchanged(host)
    ensures changes == null && Lookup(old(host.table), server).Some? ==>
      var t, n := old(host.table), Reached(old(host.table), server, works);
      && host.table == With(t, server, Lookup(t, server).value, tun, Left(n, failed))
      && (host.table == t <==> (n >= 1 ==> 0 !in failed) && (n >= 2 ==> 1 !in failed))
    ensures |old(host.trace)| <= |host.trace| && old(host.trace) == host.trace[..|old(host.trace)|]
    ensures Lookup(old(host.table), server).Some? ==>
      var t, n := old(host.table), Reached(old(host.table), server, works);
      ServerKept(host.trace[|old(host.trace)|..], server, Lookup(t, server).value) <==>
        !(n == 2 && 0 !in failed && 1 in failed && server < 0x8000_0000 && Best(t, server).value.len <= 1
          && tun != Lookup(t, server).value)
  {
    hide Lookup, Effect, With, Best, Captured;
    var underlay := Lookup(host.table, server);
    if underlay.None? {
      return null;
    }
    var hop := underlay.value;
    ghost var t := host.table;
    AddedInOrder(t, server, hop, tun);
    Leftover(t, server, hop, tun, NONE);
    changes := new ChangeSet(host);
    var ok := changes.AddChange(Add(HostRoute(server), hop), Del(HostRoute(server), hop), works[0]);
    if !ok {
      return null;
    }
    InstallKeepsServer(t, server, hop, tun, NONE.(host := true));
    ghost var start := host.trace;
    ok := InstallHalves(changes, tun, works, failed, t, server, hop);
    assert host.trace[|start| - 1..] == [start[|start| - 1]] + host.trace[|start|..];
    if !ok {
      return null;
    }
  }

  /** The two halves, after the host route is in. */
  method InstallHalves(changes: ChangeSet, tun: Hop, works: seq<bool>, failed: set<nat>,
                       ghost t: Table, ghost server: nat, ghost hop: Hop)
    returns (ok: bool)
    requires server < ADDRESSES && |works| == 3
    requires Lookup(t, server) == Some(hop) && Reached(t, server, works) >= 1
    requires changes.host.table == With(t, server, hop, tun, NONE.(host := true))
    requires changes.undo == Reversals(server, hop, tun)[..1]
    modifies changes, changes.host
    ensures ok <==> Reached(t, server, works) == 3
    ensures ok ==>
      changes.undo == Reversals(server, hop, tun) && changes.host.table == With(t, server, hop, tun, ALL)
    ensures !ok ==>
      var n := Reached(t, server, works);
      && changes.host.table == With(t, server, hop, tun, Left(n, failed))
      && (changes.host.table == t <==> 0 !in failed && (n == 2 ==> 1 !in failed))
    ensures |old(changes.host.trace)| <= |changes.host.trace|
    ensures changes.host.trace[..|old(changes.host.trace)|] == old(changes.host.trace)
    ensures ServerKept(changes.host.trace[|old(changes.host.trace)|..], server, hop) <==>
      !(Reached(t, server, works) == 2 && 0 !in failed && 1 in failed && server < 0x8000_0000
        && Best(t, server).value.len <= 1 && tun != hop)
  {
    hide Lookup, Effect, With, Unwound, Final, Best, Captured;
    ghost var t1, t2, t3 := With(t, server, hop, tun, NONE.(host := true)),
                            With(t, server, hop, tun, ALL.(upper := false)), With(t, server, hop, tun, ALL);
    ghost var start := changes.host.trace;
    AddedInOrder(t, server, hop, tun);
    ok := changes.AddChange(Add(LOWER_HALF, tun), Del(LOWER_HALF, tun), works[1]);
    if !ok {
      HostTeardown(t, server, hop, tun, failed);
      changes.UndoAll(failed);
      assert changes.host.trace
        == start + ([t1] + Unwound(t1, Reversals(server, hop, tun)[..1], failed));
      return;
    }
    ok := changes.AddChange(Add(UPPER_HALF, tun), Del(UPPER_HALF, tun), works[2]);
    assert changes.host.trace == start + [t2, if ok then t3 else t2];
    if !ok {
      PartialTeardown(t, server, hop, tun, failed);
      assert changes.undo == Reversals(server, hop, tun)[..2];
      changes.UndoAll(failed);
      assert changes.host.trace == start + ([t2, t2] + Unwound(t2, Reversals(server, hop, tun)[..2], failed));
      return;
    }
    InstallKeepsServer(t, server, hop, tun, ALL.(upper := false));
    InstallKeepsServer(t, server, hop, tun, ALL);
  }

  /** Adding the three routes one after the other, where they fit. */
  lemma AddedInOrder(t: Table, server: nat, hop: Hop, tun: Hop)
    ensures var t1 := With(t, server, hop, tun, NONE.(host := true));
      var t2 := With(t, server, hop, tun, ALL.(upper := false));
      && Effect(t, Add(HostRoute(server), hop)) == t1 && Effect(t1, Add(LOWER_HALF, tun)) == t2
      && Effect(t2, Add(UPPER_HALF, tun)) == With(t, server, hop, tun, ALL)
      && (LOWER_HALF in t1 <==> LOWER_HALF in t) && (UPPER_HALF in t2 <==> UPPER_HALF in t)
  {
  }

  lemma InstallKeepsServer(t: Table, server: nat, hop: Hop, tun: Hop, i: Installed)
    requires server < ADDRESSES && Lookup(t, server) == Some(hop) && Fits(t, server, i) && i.host
    ensures Lookup(With(t, server, hop, tun, i), server) == Some(hop)
  {
    ServerHop(t, server, hop, tun, i);
  }
}
