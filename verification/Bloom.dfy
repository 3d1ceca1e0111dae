/** The bloom filter policy (util/bloom.cc). */
module Bloom {
  import opened Coding

  /** Hash with the filter's seed: any function of the key. */
  type KeyHash = seq<Byte> -> Word

  // ----- bits of bytes -----

  /** b & (1 << i) */
  predicate HasBit(b: nat, i: nat) {
    if i == 0 then b % 2 == 1 else HasBit(b / 2, i - 1)
  }

  /** b | (1 << i) */
  function SetBit(b: nat, i: nat): nat {
    if i == 0 then (if b % 2 == 1 then b else b + 1) else 2 * SetBit(b / 2, i - 1) + b % 2
  }

  function Pow2(n: nat): nat {
    if n == 0 then 1 else 2 * Pow2(n - 1)
  }

  lemma {:induction false} SetBitFits(b: nat, i: nat, n: nat)
    requires i < n && b < Pow2(n)
    ensures SetBit(b, i) < Pow2(n)
  {
    var half := Pow2(n - 1);
    assert Pow2(n) == 2 * half;
    if i == 0 {
      if b % 2 == 0 { assert b + 1 != 2 * half; }
    } else {
      SetBitFits(b / 2, i - 1, n - 1);
      assert SetBit(b, i) == 2 * SetBit(b / 2, i - 1) + b % 2;
    }
  }

  lemma {:induction false} SetBitSets(b: nat, i: nat, j: nat)
    ensures HasBit(SetBit(b, i), j) <==> i == j || HasBit(b, j)
  {
    if i > 0 && j > 0 {
      SetBitSets(b / 2, i - 1, j - 1);
      assert SetBit(b, i) / 2 == SetBit(b / 2, i - 1);
    }
  }

  /** On a byte. */
  function ByteWithBit(b: Byte, i: nat): (r: Byte)
    requires i < 8
    ensures forall j :: 0 <= j < 8 ==> (HasBit(r, j) <==> i == j || HasBit(b, j))
  {
    assert Pow2(8) == 256 by { assert Pow2(4) == 16; }
    SetBitFits(b, i, 8);
    assert forall j :: 0 <= j < 8 ==> (HasBit(SetBit(b, i), j) <==> i == j || HasBit(b, j)) by {
      forall j | 0 <= j < 8 ensures HasBit(SetBit(b, i), j) <==> i == j || HasBit(b, j) { SetBitSets(b, i, j); }
    }
    SetBit(b, i)
  }

  // ----- probes -----

  /** h >> 17 | h << 15 */
  function Delta(h: Word): Word {
    h / 131072 + h % 131072 * 32768
  }

  /** Double hashing, in 32 bits. */
  function HashAt(h: Word, j: nat): Word {
    (h + j * Delta(h)) % 0x1_0000_0000
  }

  /** The bit position of a key's probe `j`. */
  function Probe(h: Word, j: nat, bits: nat): (r: nat)
    requires bits > 0
    ensures r < bits
  {
    HashAt(h, j) % bits
  }

  /** Bit `pos` of a bit array. */
  predicate BitAt(bitmap: seq<Byte>, pos: nat)
    requires pos < 8 * |bitmap|
  {
    HasBit(bitmap[pos / 8], pos % 8)
  }

  /** A filter: the bit array, then the number of probes. */
  ghost predicate Matches(hash: KeyHash, filter: seq<Byte>, key: seq<Byte>) {
    && |filter| >= 2
    && var k, bitmap := filter[|filter| - 1], filter[..|filter| - 1];
       k > 30 || forall j :: 0 <= j < k ==> BitAt(bitmap, Probe(hash(key), j, 8 * |bitmap|))
  }

  method KeyMayMatch(hash: KeyHash, key: seq<Byte>, filter: seq<Byte>) returns (r: bool)
    ensures r <==> Matches(hash, filter, key)
  {
    hide BitAt, HashAt, Delta;
    if |filter| < 2 {
      return false;
    }
    var bitmap := filter[..|filter| - 1];
    var bits := (|filter| - 1) * 8;
    var k := filter[|filter| - 1];
    if k > 30 {
      return true;
    }
    var h := hash(key);
    FirstHash(h);
    var delta := Delta(h);
    for j := 0 to k
      invariant h == HashAt(hash(key), j)
      invariant forall i :: 0 <= i < j ==> BitAt(bitmap, Probe(hash(key), i, bits))
    {
      var bitpos := h % bits;
      assert bitpos == Probe(hash(key), j, bits);
      if !BitAt(bitmap, bitpos) {
        return false;
      }
      NextHash(hash(key), j);
      h := (h + delta) % 0x1_0000_0000;
    }
    return true;
  }

  lemma {:induction false} FirstHash(h: Word)
    ensures HashAt(h, 0) == h
  {
  }

  lemma {:induction false} NextHash(h: Word, j: nat)
    ensures (HashAt(h, j) + Delta(h)) % 0x1_0000_0000 == HashAt(h, j + 1)
  {
    var delta := Delta(h);
    assert (j + 1) * delta == j * delta + delta;
    ModAdd(h + j * delta, delta);
  }

  lemma {:induction false} ModAdd(a: nat, b: nat)
    ensures (a % 0x1_0000_0000 + b) % 0x1_0000_0000 == (a + b) % 0x1_0000_0000
  {
    var q := a / 0x1_0000_0000;
    assert a == 0x1_0000_0000 * q + a % 0x1_0000_0000;
  }

  /** The first `n` probes of a key are set. */
  ghost predicate Set(hash: KeyHash, bitmap: seq<Byte>, key: seq<Byte>, n: nat) {
    |bitmap| > 0 && forall j :: 0 <= j < n ==> BitAt(bitmap, Probe(hash(key), j, 8 * |bitmap|))
  }

  /** No bit is cleared. */
  ghost predicate MoreBits(a: seq<Byte>, b: seq<Byte>) {
    |a| == |b| && forall pos :: 0 <= pos < 8 * |a| && BitAt(a, pos) ==> BitAt(b, pos)
  }

  lemma {:induction false} BitIsSet(bitmap: seq<Byte>, pos: nat)
    requires pos < 8 * |bitmap|
    ensures var b := bitmap[pos / 8 := ByteWithBit(bitmap[pos / 8], pos % 8)]; MoreBits(bitmap, b) && BitAt(b, pos)
  {
    var b := bitmap[pos / 8 := ByteWithBit(bitmap[pos / 8], pos % 8)];
    forall p | 0 <= p < 8 * |bitmap| ensures BitAt(b, p) <==> p == pos || BitAt(bitmap, p) {
    }
  }

  /** CreateFilter: every key added matches, whatever the hash function. */
  method CreateFilter(hash: KeyHash, keys: seq<seq<Byte>>, bitsPerKey: nat, k: nat) returns (filter: seq<Byte>)
    requires 1 <= k <= 30
    ensures forall key :: key in keys ==> Matches(hash, filter, key)
    ensures |filter| == (if |keys| * bitsPerKey < 64 then 8 else (|keys| * bitsPerKey + 7) / 8) + 1
    ensures filter[|filter| - 1] == k
  {
    hide BitAt, Probe;
    var bits := |keys| * bitsPerKey;
    if bits < 64 {
      bits := 64;
    }
    var bytes := (bits + 7) / 8;
    bits := bytes * 8;
    var bitmap: seq<Byte> := seq(bytes, _ => 0);
    for i := 0 to |keys|
      invariant |bitmap| == bytes && forall a :: 0 <= a < i ==> Set(hash, bitmap, keys[a], k)
    {
      bitmap := AddKey(hash, bitmap, keys[i], k);
    }
    filter := bitmap + [k];
    assert filter[..|filter| - 1] == bitmap;
    forall key | key in keys ensures Matches(hash, filter, key) {
      var a :| 0 <= a < |keys| && keys[a] == key;
      assert Set(hash, bitmap, keys[a], k);
    }
  }

  /** The inner loop. */
  method AddKey(hash: KeyHash, bitmap: seq<Byte>, key: seq<Byte>, k: nat) returns (r: seq<Byte>)
    requires |bitmap| > 0
    ensures |r| == |bitmap| && Set(hash, r, key, k)
    ensures forall other, n :: Set(hash, bitmap, other, n) ==> Set(hash, r, other, n)
  {
    hide BitAt, HashAt, Delta;
    var bits := 8 * |bitmap|;
    r := bitmap;
    var h := hash(key);
    FirstHash(h);
    var delta := Delta(h);
    for j := 0 to k
      invariant |r| == |bitmap| && h == HashAt(hash(key), j)
      invariant MoreBits(bitmap, r) && Set(hash, r, key, j)
    {
      var bitpos := h % bits;
      assert bitpos == Probe(hash(key), j, bits);
      BitIsSet(r, bitpos);
      r := r[bitpos / 8 := ByteWithBit(r[bitpos / 8], bitpos % 8)];
      NextHash(hash(key), j);
      h := (h + delta) % 0x1_0000_0000;
    }
  }
}
