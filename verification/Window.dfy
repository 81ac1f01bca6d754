/** The replay window: a circular bitmap of the last 8192 counters that stands for the set of all counters
    ever accepted. */
module Window {
  import opened Octets

  type Uint64 = x: int | 0 <= x < 0x1_0000_0000_0000_0000

  const BITS: nat := 8192
  const WORDS: nat := 128
  const REJECT_AFTER: nat := 0xffff_ffff_ffff_dfff  // 2^64 - 2^13 - 1

  // ------------------------------------------------------------ one word

  /** `w | (1 << i)` */
  function SetBit(w: nat, i: nat): (r: nat) {
    if i == 0 then w - w % 2 + 1 else 2 * SetBit(w / 2, i - 1) + w % 2
  }

  /** `w & ~(1 << i)` */
  function ClearBit(w: nat, i: nat): (r: nat) {
    if i == 0 then w - w % 2 else 2 * ClearBit(w / 2, i - 1) + w % 2
  }

  lemma {:induction false} SetClearBit(w: nat, i: nat, j: nat)
    ensures Bit(SetBit(w, i), j) <==> i == j || Bit(w, j)
    ensures Bit(ClearBit(w, i), j) <==> i != j && Bit(w, j)
  {
    if i > 0 {
      assert SetBit(w, i) / 2 == SetBit(w / 2, i - 1) && ClearBit(w, i) / 2 == ClearBit(w / 2, i - 1);
      if j > 0 {
        SetClearBit(w / 2, i - 1, j - 1);
      }
    }
  }

  lemma {:induction false} WordBound(w: nat, i: nat, n: nat)
    requires w < Power2(n) && i < n
    ensures SetBit(w, i) < Power2(n) && ClearBit(w, i) < Power2(n)
  {
    if i > 0 {
      WordBound(w / 2, i - 1, n - 1);
    }
  }

  lemma HexDigit(n: nat)
    ensures Power2(n + 4) == 16 * Power2(n)
  {
    assert Power2(n + 4) == 4 * Power2(n + 2);
  }

  lemma HexDigits(n: nat)
    ensures Power2(n + 16) == 0x1_0000 * Power2(n)
  {
    HexDigit(n);
    HexDigit(n + 4);
    HexDigit(n + 8);
    HexDigit(n + 12);
  }

  lemma WordSize()
    ensures Power2(64) == U64
  {
    HexDigits(0);
    HexDigits(16);
    HexDigits(32);
    HexDigits(48);
  }

  lemma {:induction false} ZeroWord(i: nat)
    ensures !Bit(0, i)
  {
    if i > 0 {
      ZeroWord(i - 1);
    }
  }

  // -------------------------------------------------------- what it stands for

  /** Whether a counter is fresh, given every counter accepted so far: below the limit, not accepted
      before, and less than the window's width behind the greatest accepted one. */
  predicate Acceptable(accepted: set<nat>, counter: nat) {
    && counter < REJECT_AFTER
    && counter !in accepted
    && forall c | c in accepted :: c < counter + BITS
  }

  /** The same, told from the greatest accepted counter, with the protocol's two limits: 2^64 - 2^13 - 1
      messages under a key, and 8192 counters of reordering. */
  lemma AcceptableByHighest(accepted: set<nat>, highest: nat, counter: nat)
    requires highest in accepted && forall c | c in accepted :: c <= highest
    ensures Acceptable(accepted, counter) <==>
      && counter < 0x1_0000_0000_0000_0000 - 0x2000 - 1
      && (counter > highest || (highest - counter < 8192 && counter !in accepted))
  {
  }

  /** Before anything was accepted every counter below the limit is. */
  lemma AcceptableAtFirst(counter: nat)
    ensures Acceptable({}, counter) <==> counter < 0x1_0000_0000_0000_0000 - 0x2000 - 1
  {
  }

  /** The counter inside the window that shares a slot with the older `counter`. */
  function LiveAlias(highest: nat, counter: nat): (c: nat)
    requires counter <= highest
    ensures c <= highest < c + BITS && c % BITS == counter % BITS
  {
    highest - (highest - counter) % BITS
  }

  /** Counters less than a window apart have slots of their own. */
  lemma SlotsApart(c: nat, d: nat)
    requires c <= d < c + BITS
    ensures c % BITS == d % BITS ==> c == d
  {
  }

  /** The clearing loop runs a 64-bit counter from above `highest` up to and including `counter`. It ends
      exactly when there is a number above `counter` to end at. */
  lemma SlideEnds(highest: nat, counter: nat)
    requires highest < counter < U64
    ensures (exists n: nat :: SlideCounter(highest, n) > counter) <==> counter + 1 < U64
  {
    if counter + 1 < U64 {
      assert SlideCounter(highest, counter - highest) > counter;
    }
  }

  /** The loop's counter after `n` rounds. */
  function SlideCounter(highest: nat, n: nat): (c: nat)
    ensures c < U64
  {
    (highest + 1 + n) % U64
  }

  class ReplayWindow {
    const bitmap: array<Uint64>
    var highest: Uint64
    var seen: bool
    ghost var accepted: set<nat>

    ghost predicate Shape()
      reads this, bitmap
    {
      && bitmap.Length == WORDS
      && (seen <==> accepted != {})
      && (seen ==> highest in accepted && forall c | c in accepted :: c <= highest)
    }

    /** Slot `i` of the ring. */
    predicate Slot(i: nat)
      requires bitmap.Length == WORDS && i < BITS
      reads bitmap
    {
      Bit(bitmap[i / 64], i % 64)
    }

    /** Every counter in the window that ends at `top` has its slot set exactly when it was accepted. */
    ghost predicate Agrees(top: nat)
      requires bitmap.Length == WORDS
      reads this, bitmap
    {
      forall c: nat :: top < c + BITS && c <= top ==> (Slot(c % BITS) <==> c in accepted)
    }

    ghost predicate Valid()
      reads this, bitmap
    {
      Shape() && (seen ==> Agrees(highest))
    }

    constructor ()
      ensures Valid() && fresh(bitmap) && accepted == {} && !seen
    {
      bitmap := new Uint64[WORDS](_ => 0);
      highest, seen, accepted := 0, false, {};
    }

    method SetSlot(counter: Uint64)
      requires bitmap.Length == WORDS
      modifies bitmap
      ensures forall i: nat | i < BITS :: Slot(i) <==> i == counter % BITS || old(Slot(i))
    {
      var index := counter % BITS;
      var word := bitmap[index / 64];
      WordSize();
      WordBound(word, index % 64, 64);
      bitmap[index / 64] := SetBit(word, index % 64);
      forall i: nat | i < BITS ensures Slot(i) <==> i == index || old(Slot(i)) {
        SetClearBit(word, index % 64, i % 64);
      }
    }

    method ClearSlot(counter: Uint64)
      requires bitmap.Length == WORDS
      modifies bitmap
      ensures forall i: nat | i < BITS :: Slot(i) <==> i != counter % BITS && old(Slot(i))
    {
      var index := counter % BITS;
      var word := bitmap[index / 64];
      WordSize();
      WordBound(word, index % 64, 64);
      bitmap[index / 64] := ClearBit(word, index % 64);
      forall i: nat | i < BITS ensures Slot(i) <==> i != index && old(Slot(i)) {
        SetClearBit(word, index % 64, i % 64);
      }
    }

    method ClearAll()
      requires bitmap.Length == WORDS
      modifies bitmap
      ensures forall i: nat | i < BITS :: !Slot(i)
    {
      for k := 0 to WORDS
        invariant forall j :: 0 <= j < k ==> bitmap[j] == 0
      {
        bitmap[k] := 0;
      }
      forall i: nat | i < BITS ensures !Slot(i) {
        ZeroWord(i % 64);
      }
    }

    /** The query on the bitmap answers exactly what the set of accepted counters says. */
    method IsAcceptable(counter: Uint64) returns (ok: bool)
      requires Valid()
      ensures ok == Acceptable(accepted, counter)
    {
      if counter >= REJECT_AFTER {
        return false;
      }
      if !seen {
        return true;
      }
      if counter > highest {
        return true;
      }
      if highest - counter >= BITS {
        return false;
      }
      return !Slot(counter % BITS);
    }

    /** Clears the slots the window slides over; `c` never leaves 64 bits. */
    method Slide(counter: Uint64)
      requires Valid() && seen
      requires highest < counter < highest + BITS && counter + 1 < U64
      modifies bitmap
      ensures Agrees(counter)
    {
      hide Slot;
      var c: Uint64 := highest + 1;
      while c <= counter
        invariant highest < c <= counter + 1
        invariant Agrees(c - 1)
        decreases counter + 1 - c
      {
        ClearSlot(c);
        forall d: nat | c < d + BITS && d <= c ensures Slot(d % BITS) <==> d in accepted {
          SlotsApart(d, c);
        }
        c := c + 1;
      }
    }

    /** Marks a counter that is not above the window. */
    method Mark(counter: Uint64)
      requires bitmap.Length == WORDS && counter <= highest && Agrees(highest)
      modifies `accepted, bitmap
      ensures highest >= counter + BITS ==>
        accepted == old(accepted) && (Agrees(highest) <==> LiveAlias(highest, counter) in accepted)
      ensures highest < counter + BITS ==>
        accepted == old(accepted) + {counter} && Agrees(highest)
    {
      hide Slot, LiveAlias;
      var live := if highest < counter + BITS then counter else LiveAlias(highest, counter);
      SetSlot(counter);
      forall d: nat | highest < d + BITS && d <= highest
        ensures Slot(d % BITS) <==> d == live || d in accepted
      {
        SlotsApart(if d <= live then d else live, if d <= live then live else d);
      }
      if highest < counter + BITS {
        accepted := accepted + {counter};
      }
    }

    /** Records a counter. It has no guard of its own: given a counter that is `BITS` or more behind, it
        marks another counter's slot, and the bitmap stays right only if that one was accepted already. Nor
        does it end for the greatest 64-bit counter when it has to slide there. */
    method Accept(counter: Uint64)
      requires Valid() && (seen && highest < counter < highest + BITS ==> counter + 1 < U64)
      modifies this, bitmap
      ensures old(seen && highest >= counter + BITS) ==>
        && accepted == old(accepted) && highest == old(highest) && seen
        && (Valid() <==> LiveAlias(highest, counter) in accepted)
      ensures !old(seen && highest >= counter + BITS) ==>
        Valid() && accepted == old(accepted) + {counter}
    {
      if !seen {
        seen, highest := true, counter;
        ClearAll();
        Mark(counter);
        return;
      }
      if counter > highest {
        if counter - highest >= BITS {
          ClearAll();
        } else {
          Slide(counter);
        }
        highest := counter;
      }
      Mark(counter);
    }
  }
}
