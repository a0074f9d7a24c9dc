/**
 * AXBitFlags<TEnumWrapper, TStorageType>: flags 0 .. FlagMax-1 kept in an
 * array of storage words. Both the word index and the bit position are
 * derived from sizeof(TStorageType), a size in BYTES: flag f lives in word
 * f / S at bit f % S, where S is the storage type's size in bytes.
 */
module BitFlags {

  /** The storage types: uint8_t, uint16_t, uint32_t, uint64_t, by their size in bytes. */
  predicate StorageSize(s: nat)
  {
    s == 1 || s == 2 || s == 4 || s == 8
  }

  /** The length of mStorage: (FlagMax + (sizeof * 8 - 1)) / sizeof. */
  function StorageLength(flagMax: nat, s: nat): (n: nat)
    requires StorageSize(s)
    ensures flagMax > 0 ==> n >= 1
    ensures n * s >= flagMax
  {
    (flagMax + (s * 8 - 1)) / s
  }

  /** The word flag f is stored in: f / sizeof. */
  function Word(f: nat, s: nat): (w: nat)
    requires StorageSize(s)
    ensures w <= f
  {
    f / s
  }

  /** The word of every flag below FlagMax lies inside mStorage. */
  lemma WordInBounds(flagMax: nat, s: nat, f: nat)
    requires StorageSize(s) && f < flagMax
    ensures Word(f, s) < StorageLength(flagMax, s)
  {
    assert Word(f, s) * s <= f;
    assert (Word(f, s) + 1) * s > f;
  }

  /**
   * A storage word as its bits, least significant first: a TStorageType
   * value of sizeof * 8 bits.
   */
  type Bits = seq<bool>

  /** The word is a value of the storage type: it has 8 * sizeof bits. */
  predicate Fits(w: Bits, s: nat)
  {
    |w| == 8 * s
  }

  /** The bit position of flag f in its word: f % sizeof. */
  function Position(f: nat, s: nat): (b: nat)
    requires StorageSize(s)
    ensures b < s && b < 8 * s
  {
    f % s
  }

  /** The word value 0x1 << (f % sizeof) as bits: only the flag's position is set. */
  function Mask(f: nat, s: nat): (m: Bits)
    requires StorageSize(s)
    ensures Fits(m, s)
    ensures forall b :: 0 <= b < |m| ==> (m[b] <==> b == Position(f, s))
  {
    seq(8 * s, b => b == Position(f, s))
  }

  /** Whether flag f is set in its word w. */
  predicate IsSet(w: Bits, f: nat, s: nat)
    requires StorageSize(s) && Fits(w, s)
  {
    w[Position(f, s)]
  }

  /** Distinct flags occupy distinct positions: another word, or another bit of the same word. */
  lemma DistinctFlagsDistinctPositions(f: nat, g: nat, s: nat)
    requires StorageSize(s) && f != g
    ensures Word(f, s) != Word(g, s) || Position(f, s) != Position(g, s)
  {
    if Word(f, s) == Word(g, s) {
      assert f == Word(f, s) * s + Position(f, s);
      assert g == Word(g, s) * s + Position(g, s);
    }
  }

  /** The bitwise AND of two words of one type. */
  function And(v: Bits, w: Bits): (r: Bits)
    requires |v| == |w|
    ensures |r| == |v| && forall b :: 0 <= b < |r| ==> (r[b] <==> v[b] && w[b])
  {
    seq(|v|, b requires 0 <= b < |v| => v[b] && w[b])
  }

  /** The bitwise OR of two words of one type. */
  function Or(v: Bits, w: Bits): (r: Bits)
    requires |v| == |w|
    ensures |r| == |v| && forall b :: 0 <= b < |r| ==> (r[b] <==> v[b] || w[b])
  {
    seq(|v|, b requires 0 <= b < |v| => v[b] || w[b])
  }

  /** mStorage[f / sizeof] &= (0x1 << (f % sizeof)), as written. */
  function SetWordAsWritten(w: Bits, f: nat, s: nat): (r: Bits)
    requires StorageSize(s) && Fits(w, s)
    ensures Fits(r, s)
  {
    And(w, Mask(f, s))
  }

  /** The word written by Set as written keeps at most the bit of f, and keeps it only if it was set. */
  lemma SetWordAsWrittenKeepsAtMostFlag(w: Bits, f: nat, s: nat)
    requires StorageSize(s) && Fits(w, s)
    ensures forall b :: 0 <= b < 8 * s ==> (SetWordAsWritten(w, f, s)[b] <==> b == Position(f, s) && w[b])
  {
  }

  /**
   * Set as written does not set the flag: a word with all bits clear stays
   * clear, and every other flag of the word is cleared.
   */
  lemma SetAsWrittenDoesNotSet(f: nat, g: nat, s: nat)
    requires StorageSize(s) && f != g && Word(f, s) == Word(g, s)
    ensures !IsSet(SetWordAsWritten(seq(8 * s, _ => false), f, s), f, s)
    ensures forall w: Bits :: Fits(w, s) ==> !IsSet(SetWordAsWritten(w, f, s), g, s)
  {
    DistinctFlagsDistinctPositions(f, g, s);
  }

  /** Set as written is idempotent. */
  lemma SetWordAsWrittenIdempotent(w: Bits, f: nat, s: nat)
    requires StorageSize(s) && Fits(w, s)
    ensures SetWordAsWritten(SetWordAsWritten(w, f, s), f, s) == SetWordAsWritten(w, f, s)
  {
  }

  /** The evidently intended Set: mStorage[f / sizeof] |= (0x1 << (f % sizeof)). */
  function SetWord(w: Bits, f: nat, s: nat): (r: Bits)
    requires StorageSize(s) && Fits(w, s)
    ensures Fits(r, s) && IsSet(r, f, s)
  {
    Or(w, Mask(f, s))
  }

  /** The intended Set leaves every other flag of the word as it was. */
  lemma SetWordKeepsOthers(w: Bits, f: nat, g: nat, s: nat)
    requires StorageSize(s) && Fits(w, s) && f != g && Word(f, s) == Word(g, s)
    ensures IsSet(SetWord(w, f, s), g, s) <==> IsSet(w, g, s)
  {
    DistinctFlagsDistinctPositions(f, g, s);
  }

  /** The intended Set is idempotent. */
  lemma SetWordIdempotent(w: Bits, f: nat, s: nat)
    requires StorageSize(s) && Fits(w, s)
    ensures SetWord(SetWord(w, f, s), f, s) == SetWord(w, f, s)
  {
  }

  /** An AXBitFlags object: its FlagMax, sizeof(TStorageType) and mStorage. */
  class BitFlags {
    const flagMax: nat
    const storageBytes: nat
    const storage: array<Bits>

    ghost predicate Valid()
      reads this, storage
    {
      && flagMax > 0 && StorageSize(storageBytes)
      && storage.Length == StorageLength(flagMax, storageBytes)
      && forall i :: 0 <= i < storage.Length ==> Fits(storage[i], storageBytes)
    }

    /** A value-initialised object: every bit of every word is clear. */
    constructor (flagMax: nat, storageBytes: nat)
      requires flagMax > 0 && StorageSize(storageBytes)
      ensures Valid() && this.flagMax == flagMax && this.storageBytes == storageBytes
      ensures forall i :: 0 <= i < storage.Length ==> storage[i] == seq(8 * storageBytes, _ => false)
    {
      this.flagMax := flagMax;
      this.storageBytes := storageBytes;
      storage := new Bits[StorageLength(flagMax, storageBytes)](_ => seq(8 * storageBytes, _ => false));
    }

    /** Whether flag f is set. */
    predicate Has(f: nat)
      reads this, storage
      requires Valid() && f < flagMax
    {
      WordInBounds(flagMax, storageBytes, f);
      IsSet(storage[Word(f, storageBytes)], f, storageBytes)
    }

    /** Set as written: the flag's word is ANDed with the flag's mask; no other word changes. */
    method SetAsWritten(f: nat)
      requires Valid() && f < flagMax
      modifies storage
      ensures Valid() && Word(f, storageBytes) < storage.Length
      ensures storage[..] == old(storage[..])[Word(f, storageBytes) := SetWordAsWritten(old(storage[Word(f, storageBytes)]), f, storageBytes)]
    {
      WordInBounds(flagMax, storageBytes, f);
      var i := f / storageBytes;
      storage[i] := And(storage[i], Mask(f, storageBytes));
    }

    /** The intended Set: the flag's word is ORed with the flag's mask; no other word changes. */
    method Set(f: nat)
      requires Valid() && f < flagMax
      modifies storage
      ensures Valid() && Word(f, storageBytes) < storage.Length
      ensures storage[..] == old(storage[..])[Word(f, storageBytes) := SetWord(old(storage[Word(f, storageBytes)]), f, storageBytes)]
      ensures Has(f)
      ensures forall g: nat :: g < flagMax && g != f ==> (Has(g) <==> old(Has(g)))
    {
      WordInBounds(flagMax, storageBytes, f);
      var i := f / storageBytes;
      storage[i] := Or(storage[i], Mask(f, storageBytes));
      forall g: nat | g < flagMax && g != f
        ensures Has(g) <==> old(Has(g))
      {
        WordInBounds(flagMax, storageBytes, g);
        if Word(g, storageBytes) == i {
          SetWordKeepsOthers(old(storage[i]), f, g, storageBytes);
        }
      }
    }
  }
}
