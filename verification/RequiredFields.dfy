/** The bitmap by which pb_decode_inner notices missing required fields. */
module RequiredFields {
  import opened Words

  const MAX_REQUIRED_FIELDS := 64
  const WORD_BITS := 32
  const ALL_BITS: u32 := 0xFFFF_FFFF

  /** x >> n. */
  function Shr(x: nat, n: nat): nat
    decreases n
  {
    if n == 0 then x else Shr(x / 2, n - 1)
  }

  predicate Bit(w: nat, b: nat) {
    Shr(w, b) % 2 == 1
  }

  /** w | (1 << b). */
  function SetBit(w: nat, b: nat): nat {
    if Bit(w, b) then w else w + Shl(1, b)
  }

  /** The word whose bit k says whether base + k is a member, for k < n. */
  function WordOf(seen: set<nat>, base: nat, n: nat): nat
    decreases n, base, seen
  {
    if n == 0 then 0 else (if base in seen then 1 else 0) + 2 * WordOf(seen, base + 1, n - 1)
  }

  /** Bits outside the word do not matter. */
  lemma {:induction false} WordLocal(seen: set<nat>, base: nat, n: nat, x: nat)
    requires x < base || x >= base + n
    ensures WordOf(seen + {x}, base, n) == WordOf(seen, base, n)
    decreases n
  {
    if n > 0 {
      WordLocal(seen, base + 1, n - 1, x);
    }
  }

  /** Setting a bit adds a member. */
  lemma {:induction false} WordAdd(seen: set<nat>, base: nat, n: nat, b: nat)
    requires b < n
    ensures SetBit(WordOf(seen, base, n), b) == WordOf(seen + {base + b}, base, n)
    decreases n
  {
    if b == 0 {
      WordLocal(seen, base + 1, n - 1, base);
    } else {
      WordAdd(seen, base + 1, n - 1, b - 1);
    }
  }

  lemma {:induction false} WordBound(seen: set<nat>, base: nat, n: nat)
    ensures WordOf(seen, base, n) < Shl(1, n)
    decreases n
  {
    if n > 0 {
      WordBound(seen, base + 1, n - 1);
    }
  }

  /** The remainder mask has exactly the low r bits. */
  lemma {:induction false} MaskShifts(r: nat, b: nat)
    ensures Shr(Shl(1, r + b) - 1, b) == Shl(1, r) - 1
    decreases b
  {
    if b > 0 {
      assert (Shl(1, r + b) - 1) / 2 == Shl(1, r + b - 1) - 1;
      MaskShifts(r, b - 1);
    }
  }

  /** A word without bits from r on equals the mask of r bits exactly if it has all of them. */
  lemma {:induction false} WordIsMask(seen: set<nat>, base: nat, n: nat, r: nat)
    requires r <= n && forall x :: x in seen && base <= x < base + n ==> x < base + r
    ensures WordOf(seen, base, n) == Shl(1, r) - 1 <==> forall x :: base <= x < base + r ==> x in seen
    decreases n
  {
    if n > 0 {
      WordIsMask(seen, base + 1, n - 1, if r == 0 then 0 else r - 1);
      if r > 0 {
        assert (forall x :: base <= x < base + r ==> x in seen) <==>
          base in seen && forall x :: base + 1 <= x < base + 1 + (r - 1) ==> x in seen;
      }
    }
  }

  lemma FullWord(n: nat)
    requires n == WORD_BITS
    ensures Shl(1, n) - 1 == ALL_BITS
  {
    Shl32(1, n);
  }

  /** pb_fields_seen_t. */
  class FieldsSeen {
    const bitfield: array<u32>
    ghost var seen: set<nat>

    ghost predicate Valid()
      reads this, bitfield
    {
      && bitfield.Length == 2
      && forall w :: 0 <= w < 2 ==> bitfield[w] == WordOf(seen, 32 * w, WORD_BITS)
    }

    constructor ()
      ensures Valid() && fresh(bitfield) && seen == {}
    {
      bitfield := new u32[2](_ => 0);
      seen := {};
      new;
      Nothing(0, WORD_BITS);
      Nothing(32, WORD_BITS);
    }

    /** Notes a required field. Indices from 64 on are not tracked. */
    method Mark(requiredFieldIndex: nat)
      requires Valid()
      modifies this, bitfield
      ensures Valid() && seen == old(seen) + if requiredFieldIndex < 64 then {requiredFieldIndex} else {}
    {
      if requiredFieldIndex < MAX_REQUIRED_FIELDS {
        var word, bit := requiredFieldIndex / 32, requiredFieldIndex % 32;
        SetSeen(word, bit);
      }
    }

    method SetSeen(word: nat, bit: nat)
      requires Valid() && word < 2 && bit < 32
      modifies this, bitfield
      ensures Valid() && seen == old(seen) + {32 * word + bit}
    {
      SetBitFits(seen, 32 * word, WORD_BITS, bit);
      WordLocal(seen, 32 * (1 - word), WORD_BITS, 32 * word + bit);
      bitfield[word] := SetBit(bitfield[word], bit);
      seen := seen + {32 * word + bit};
    }

    /** The test at the end of pb_decode_inner: whole words, then the remaining bits. */
    method AllPresent(requiredFieldCount: nat) returns (ok: bool)
      requires Valid() && forall x :: x in seen ==> x < requiredFieldCount
      ensures ok <==> forall x :: 0 <= x < requiredFieldCount && x < 64 ==> x in seen
    {
      var count := if requiredFieldCount > MAX_REQUIRED_FIELDS then MAX_REQUIRED_FIELDS else requiredFieldCount;
      var i := 0;
      var words, rest := count / 32, count % 32;
      assert count == 32 * words + rest && words <= 2 && (rest > 0 ==> words < 2);
      while i < words
        invariant 0 <= i <= words
        invariant forall x :: 0 <= x < 32 * i ==> x in seen
      {
        WholeWord(seen, 32 * i, WORD_BITS);
        if bitfield[i] != ALL_BITS {
          return false;
        }
        i := i + 1;
      }
      if rest != 0 {
        PartWord(seen, 32 * i, WORD_BITS, rest);
        if bitfield[i] != Shr(ALL_BITS, 32 - rest) {
          return false;
        }
      }
      ok := true;
    }
  }

  lemma {:induction false} Nothing(base: nat, n: nat)
    ensures WordOf({}, base, n) == 0
    decreases n
  {
    if n > 0 {
      Nothing(base + 1, n - 1);
    }
  }

  lemma SetBitFits(seen: set<nat>, base: nat, n: nat, b: nat)
    requires n == WORD_BITS && b < n
    ensures SetBit(WordOf(seen, base, n), b) == WordOf(seen + {base + b}, base, n) <= ALL_BITS
  {
    WordAdd(seen, base, n, b);
    WordBound(seen + {base + b}, base, n);
    FullWord(n);
  }

  lemma WholeWord(seen: set<nat>, base: nat, n: nat)
    requires n == WORD_BITS
    ensures WordOf(seen, base, n) == ALL_BITS <==> forall x :: base <= x < base + 32 ==> x in seen
  {
    WordIsMask(seen, base, n, n);
    FullWord(n);
  }

  lemma PartWord(seen: set<nat>, base: nat, n: nat, r: nat)
    requires n == WORD_BITS && r < n && forall x :: x in seen && base <= x < base + n ==> x < base + r
    ensures WordOf(seen, base, n) == Shr(ALL_BITS, n - r) <==> forall x :: base <= x < base + r ==> x in seen
  {
    WordIsMask(seen, base, n, r);
    FullWord(n);
    MaskShifts(r, n - r);
  }

  /** The bitmap over a whole message: whatever the number of required fields, and in whatever
      order and however often they arrive, the message is accepted if and only if every
      required field with an index below 64 arrived. */
  method CheckRequired(requiredFieldCount: nat, arrivals: seq<nat>) returns (ok: bool)
    requires forall a :: a in arrivals ==> a < requiredFieldCount
    ensures ok <==> forall x :: 0 <= x < requiredFieldCount && x < 64 ==> x in arrivals
  {
    var fieldsSeen := new FieldsSeen();
    for i := 0 to |arrivals|
      invariant fieldsSeen.Valid() && fresh(fieldsSeen) && fresh(fieldsSeen.bitfield)
      invariant forall x :: x in fieldsSeen.seen <==> x in arrivals[..i] && x < 64
    {
      fieldsSeen.Mark(arrivals[i]);
      assert arrivals[..i + 1] == arrivals[..i] + [arrivals[i]];
    }
    assert arrivals[..|arrivals|] == arrivals;
    ok := fieldsSeen.AllPresent(requiredFieldCount);
  }
}
