/** Values shared by every part of the model: optional values and results,
    bytes, the 32-bit little-endian integers of the TSCB layout, ASCII text,
    and Python's insertion-ordered dictionaries. */
module Common {

  datatype Option<+T> = None | Some(value: T)

  datatype Result<+T, +E> = Ok(value: T) | Err(error: E)

  /** One octet of a file. */
  type Byte = b: int | 0 <= b < 256

  // ---------------------------------------------------------------------------
  // 32-bit signed integers, as `struct.pack("i", x)` lays them out on a
  // little-endian host: four bytes, least significant first, two's complement.
  // ---------------------------------------------------------------------------

  const Int32Min: int := -0x8000_0000
  const Int32Max: int := 0x7fff_ffff

  predicate InInt32(x: int) {
    Int32Min <= x <= Int32Max
  }

  /** The value four little-endian bytes hold as a two's-complement int32. */
  function Int32Of(b: seq<Byte>): (x: int)
    requires |b| == 4
    ensures InInt32(x)
    ensures x < 0 <==> b[3] >= 128
  {
    var u := b[0] as int + 256 * (b[1] as int + 256 * (b[2] as int + 256 * b[3] as int));
    if u > Int32Max then u - 0x1_0000_0000 else u
  }

  /** The four bytes `struct.pack("i", x)` writes; it refuses values outside int32. */
  function Int32Le(x: int): (b: seq<Byte>)
    requires InInt32(x)
    ensures |b| == 4
    ensures Int32Of(b) == x
  {
    var u0 := if x < 0 then x + 0x1_0000_0000 else x;
    var u1 := u0 / 256;
    var u2 := u1 / 256;
    var b := [u0 % 256, u1 % 256, u2 % 256, u2 / 256];
    assert u0 == b[0] + 256 * (b[1] + 256 * (b[2] + 256 * b[3]));
    b
  }

  /** Every four bytes are the encoding of the value they hold. */
  lemma Int32LeOfInt32Of(b: seq<Byte>)
    requires |b| == 4
    ensures Int32Le(Int32Of(b)) == b
  {
    var u := b[0] as int + 256 * (b[1] as int + 256 * (b[2] as int + 256 * b[3] as int));
    var u1 := b[1] as int + 256 * (b[2] as int + 256 * b[3] as int);
    var u2 := b[2] as int + 256 * b[3] as int;
    assert u / 256 == u1 && u % 256 == b[0];
    assert u1 / 256 == u2 && u1 % 256 == b[1];
    assert u2 / 256 == b[3] && u2 % 256 == b[2];
  }

  // ---------------------------------------------------------------------------
  // ASCII: `str.encode("ASCII")` and `bytes.decode("ASCII")`.
  // ---------------------------------------------------------------------------

  predicate IsAscii(s: string) {
    forall i :: 0 <= i < |s| ==> s[i] as int < 128
  }

  /** `s.encode("ASCII")`, defined only where Python does not raise. */
  function AsciiBytes(s: string): (b: seq<Byte>)
    requires IsAscii(s)
    ensures |b| == |s|
    ensures forall i :: 0 <= i < |s| ==> b[i] == s[i] as int
  {
    if s == [] then [] else [s[0] as int] + AsciiBytes(s[1..])
  }

  /** `b.decode("ASCII")`: None where Python raises UnicodeDecodeError. */
  function AsciiDecode(b: seq<Byte>): (r: Option<string>)
    ensures r.Some? <==> forall i :: 0 <= i < |b| ==> b[i] < 128
    ensures r.Some? ==> |r.value| == |b| && IsAscii(r.value)
    ensures r.Some? ==> forall i :: 0 <= i < |b| ==> r.value[i] as int == b[i]
  {
    if b == [] then Some([])
    else if b[0] >= 128 then None
    else match AsciiDecode(b[1..])
      case None => None
      case Some(rest) => Some([b[0] as char] + rest)
  }

  lemma {:induction false} AsciiDecodeOfBytes(s: string)
    requires IsAscii(s)
    ensures AsciiDecode(AsciiBytes(s)) == Some(s)
  {
    if s != [] {
      var b := AsciiBytes(s);
      assert b[1..] == AsciiBytes(s[1..]);
      AsciiDecodeOfBytes(s[1..]);
      assert b[0] as char == s[0];
      assert [s[0]] + s[1..] == s;
    }
  }

  // ---------------------------------------------------------------------------
  // Python dictionaries: insertion-ordered, one entry per key.  Assigning to a
  // key that is present replaces its value where it stands; a new key is
  // appended.
  // ---------------------------------------------------------------------------

  type Entries<K, V> = seq<(K, V)>

  function KeysOf<K(==), V>(e: Entries<K, V>): (ks: seq<K>)
    ensures |ks| == |e|
    ensures forall i :: 0 <= i < |e| ==> ks[i] == e[i].0
  {
    if e == [] then [] else [e[0].0] + KeysOf(e[1..])
  }

  predicate DistinctKeys<K(==), V>(e: Entries<K, V>) {
    forall i, j :: 0 <= i < j < |e| ==> e[i].0 != e[j].0
  }

  predicate HasKey<K(==), V>(e: Entries<K, V>, k: K) {
    exists i :: 0 <= i < |e| && e[i].0 == k
  }

  /** Two dictionaries with distinct keys and no key in common, one after
      the other, still have distinct keys. */
  lemma DistinctConcat<K, V>(a: Entries<K, V>, b: Entries<K, V>)
    requires DistinctKeys(a) && DistinctKeys(b)
    requires forall i, j :: 0 <= i < |a| && 0 <= j < |b| ==> a[i].0 != b[j].0
    ensures DistinctKeys(a + b)
  {
    var e := a + b;
    forall i, j | 0 <= i < j < |e| ensures e[i].0 != e[j].0 {
      if j < |a| {
        assert e[i] == a[i] && e[j] == a[j];
      } else if i < |a| {
        assert e[i] == a[i] && e[j] == b[j - |a|];
      } else {
        assert e[i] == b[i - |a|] && e[j] == b[j - |a|];
      }
    }
  }

  /** `d.get(k)`: the value of the first entry with key k. */
  function Get<K(==), V>(e: Entries<K, V>, k: K): (r: Option<V>)
    ensures r.None? <==> !HasKey(e, k)
    ensures r.Some? ==> exists i :: 0 <= i < |e| && e[i] == (k, r.value)
  {
    if e == [] then None
    else if e[0].0 == k then Some(e[0].1)
    else Get(e[1..], k)
  }

  /** `d[k] = v`. */
  function Put<K(==), V>(e: Entries<K, V>, k: K, v: V): (r: Entries<K, V>)
    ensures HasKey(e, k) ==> |r| == |e|
    ensures !HasKey(e, k) ==> r == e + [(k, v)]
    ensures forall i :: 0 <= i < |e| ==> r[i] == (if e[i].0 == k then (k, v) else e[i])
    ensures DistinctKeys(e) ==> DistinctKeys(r)
  {
    if HasKey(e, k) then seq(|e|, i requires 0 <= i < |e| => if e[i].0 == k then (k, v) else e[i])
    else e + [(k, v)]
  }

  /** Looking up one of three distinct leading keys. */
  lemma GetFront3<K, V>(a: (K, V), b: (K, V), c: (K, V), rest: Entries<K, V>)
    requires a.0 != b.0 && a.0 != c.0 && b.0 != c.0
    ensures var e := [a, b, c] + rest;
            Get(e, a.0) == Some(a.1) && Get(e, b.0) == Some(b.1) && Get(e, c.0) == Some(c.1)
  {
    var e := [a, b, c] + rest;
    assert e[0] == a;
    assert e[1..] == [b, c] + rest && e[1..][0] == b;
    assert e[1..][1..] == [c] + rest && e[1..][1..][0] == c;
    assert Get(e[1..][1..], c.0) == Some(c.1);
    assert Get(e[1..], c.0) == Some(c.1);
  }

  /** Regrouping the parts of a concatenation to the right. */
  lemma AppendRight<T>(x: seq<T>, a: seq<T>, b: seq<T>, c: seq<T>)
    ensures x + a + b + c == x + (a + (b + c))
  {
    assert a + b + c == a + (b + c);
  }

  /** The parts of a sequence made of three elements and a rest. */
  lemma Front3<T>(w: seq<T>, a: T, b: T, c: T, rest: seq<T>)
    requires w == [a, b, c] + rest
    ensures |w| >= 3 && w[0] == a && w[1] == b && w[2] == c && w[3..] == rest
  {
  }

  /** Concatenation is associative. */
  lemma AppendAssoc<T>(x: seq<T>, y: seq<T>, z: seq<T>)
    ensures (x + y) + z == x + (y + z)
  {
  }

  lemma EmptyAppend<T>(s: seq<T>)
    ensures [] + s == s
  {
  }

  /** A non-empty sequence is its head in front of its tail. */
  lemma HeadTail<T>(s: seq<T>)
    requires s != []
    ensures [s[0]] + s[1..] == s
  {
  }

  /** Three entries with distinct keys. */
  lemma Distinct3<K, V>(a: (K, V), b: (K, V), c: (K, V))
    requires a.0 != b.0 && a.0 != c.0 && b.0 != c.0
    ensures DistinctKeys([a, b, c])
  {
    var e := [a, b, c];
    assert e[0] == a && e[1] == b && e[2] == c;
  }

  /** Assigning the pairs of kvs one after the other: `for k, v in kvs: d[k] = v`. */
  function PutAll<K(==), V>(e: Entries<K, V>, kvs: Entries<K, V>): (r: Entries<K, V>)
    ensures DistinctKeys(e) ==> DistinctKeys(r)
    decreases |kvs|
  {
    if kvs == [] then e else PutAll(Put(e, kvs[0].0, kvs[0].1), kvs[1..])
  }

  /** Distinct keys are assigned without any overwriting: the dictionary built
      from them holds them in the same order. */
  lemma {:induction false} PutAllDistinct<K, V>(e: Entries<K, V>, kvs: Entries<K, V>)
    requires DistinctKeys(e + kvs)
    ensures PutAll(e, kvs) == e + kvs
    decreases |kvs|
  {
    if kvs != [] {
      var k := kvs[0].0;
      assert !HasKey(e, k) by {
        forall i | 0 <= i < |e| ensures e[i].0 != k {
          assert (e + kvs)[i] == e[i] && (e + kvs)[|e|] == kvs[0];
        }
      }
      var e' := Put(e, k, kvs[0].1);
      assert e' == e + [kvs[0]];
      assert e' + kvs[1..] == e + kvs;
      PutAllDistinct(e', kvs[1..]);
    }
  }

  /** The entry a key ends up with is the last pair that assigned it. */
  lemma {:induction false} GetPutAll<K, V>(e: Entries<K, V>, kvs: Entries<K, V>, k: K)
    ensures Get(PutAll(e, kvs), k) == LastAssigned(e, kvs, k)
    decreases |kvs|
  {
    if kvs != [] {
      GetPut(e, kvs[0].0, kvs[0].1, k);
      GetPutAll(Put(e, kvs[0].0, kvs[0].1), kvs[1..], k);
    }
  }

  /** The value of the last pair in kvs with key k, if any. */
  function LastValue<K(==), V>(kvs: Entries<K, V>, k: K): (r: Option<V>)
    ensures r.None? <==> !HasKey(kvs, k)
    ensures r.Some? ==> exists i :: 0 <= i < |kvs| && kvs[i] == (k, r.value) &&
                                    forall j :: i < j < |kvs| ==> kvs[j].0 != k
  {
    if kvs == [] then None
    else match LastValue(kvs[1..], k)
      case Some(v) => Some(v)
      case None => if kvs[0].0 == k then Some(kvs[0].1) else None
  }

  /** Reference definition of a lookup after assignments: the last assignment
      to k wins, and an unassigned key keeps its old value. */
  function LastAssigned<K(==), V>(e: Entries<K, V>, kvs: Entries<K, V>, k: K): Option<V> {
    match LastValue(kvs, k)
    case Some(v) => Some(v)
    case None => Get(e, k)
  }

  lemma GetPut<K, V>(e: Entries<K, V>, k: K, v: V, k': K)
    ensures Get(Put(e, k, v), k') == if k' == k then Some(v) else Get(e, k')
  {
    if k' == k {
      var r := Put(e, k, v);
      if HasKey(e, k) {
        var i :| 0 <= i < |e| && e[i].0 == k;
        assert r[i] == (k, v);
      } else {
        assert r[|e|] == (k, v);
      }
      var j :| 0 <= j < |r| && r[j] == (k, Get(r, k).value);
      assert r[j] == (k, v);
    } else {
      if HasKey(e, k) {
        GetSameEntries(Put(e, k, v), e, k');
      } else {
        GetAppendOther(e, (k, v), k');
      }
    }
  }

  /** Two entry lists with the same keys in the same places, which agree on
      the entries of key k, agree on the lookup of k. */
  lemma {:induction false} GetSameEntries<K, V>(a: Entries<K, V>, b: Entries<K, V>, k: K)
    requires |a| == |b|
    requires forall i :: 0 <= i < |a| ==> a[i].0 == b[i].0 && (a[i].0 == k ==> a[i] == b[i])
    ensures Get(a, k) == Get(b, k)
  {
    if a != [] {
      GetSameEntries(a[1..], b[1..], k);
    }
  }

  /** An entry appended under another key does not change a lookup. */
  lemma {:induction false} GetAppendOther<K, V>(e: Entries<K, V>, p: (K, V), k: K)
    requires p.0 != k
    ensures Get(e + [p], k) == Get(e, k)
  {
    if e != [] {
      assert (e + [p])[1..] == e[1..] + [p];
      GetAppendOther(e[1..], p, k);
    }
  }

  /** Every pair of a dictionary built by assignments is an old pair or one
      of the assigned pairs. */
  lemma {:induction false} PutAllPairs<K, V>(e: Entries<K, V>, kvs: Entries<K, V>)
    ensures forall p :: p in PutAll(e, kvs) ==> p in e || p in kvs
    decreases |kvs|
  {
    if kvs != [] {
      var e' := Put(e, kvs[0].0, kvs[0].1);
      PutAllPairs(e', kvs[1..]);
      forall p | p in e' ensures p in e || p == kvs[0] {
        var i :| 0 <= i < |e'| && e'[i] == p;
        if !HasKey(e, kvs[0].0) && i == |e| {
        } else {
          assert e'[i] == (if e[i].0 == kvs[0].0 then (kvs[0].0, kvs[0].1) else e[i]);
        }
      }
    }
  }

  /** Assigning one more pair after a run of assignments. */
  lemma {:induction false} PutAllSnoc<K, V>(e: Entries<K, V>, kvs: Entries<K, V>, k: K, v: V)
    ensures PutAll(e, kvs + [(k, v)]) == Put(PutAll(e, kvs), k, v)
    decreases |kvs|
  {
    if kvs == [] {
      assert kvs + [(k, v)] == [(k, v)];
    } else {
      assert (kvs + [(k, v)])[0] == kvs[0] && (kvs + [(k, v)])[1..] == kvs[1..] + [(k, v)];
      PutAllSnoc(Put(e, kvs[0].0, kvs[0].1), kvs[1..], k, v);
    }
  }

  /** In a dictionary, looking up the key of an entry finds that entry. */
  lemma GetDistinctAt<K, V>(e: Entries<K, V>, i: nat)
    requires DistinctKeys(e) && i < |e|
    ensures Get(e, e[i].0) == Some(e[i].1)
  {
  }

  /** Among pairs with distinct keys, the last assignment to a key is its only one. */
  lemma LastValueDistinctAt<K, V>(kvs: Entries<K, V>, i: nat)
    requires DistinctKeys(kvs) && i < |kvs|
    ensures LastValue(kvs, kvs[i].0) == Some(kvs[i].1)
  {
  }
}
