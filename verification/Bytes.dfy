/** Bytes, and the little-endian integers that the wire format is made of. */
module Bytes {

  type Byte = x: int | 0 <= x < 256

  function Min(a: nat, b: nat): (m: nat)
    ensures m <= a && m <= b && (m == a || m == b)
  {
    if a <= b then a else b
  }

  /** `b` with the bytes `s` stored from position `off` on. */
  function Patch(b: seq<Byte>, off: nat, s: seq<Byte>): (r: seq<Byte>)
    requires off + |s| <= |b|
    ensures |r| == |b|
  {
    b[..off] + s + b[off + |s|..]
  }

  /** Byte by byte: `s` lies from `off` on, and everything else is as it was. */
  lemma PatchAt(b: seq<Byte>, off: nat, s: seq<Byte>, i: nat)
    requires off + |s| <= |b| && i < |b|
    ensures Patch(b, off, s)[i] == if off <= i < off + |s| then s[i - off] else b[i]
  {
  }

  lemma PatchEnd(done: seq<Byte>, rest: seq<Byte>, s: seq<Byte>)
    requires |s| <= |rest|
    ensures Patch(done + rest, |done|, s) == (done + s) + rest[|s|..]
  {
  }

  lemma Assoc<T>(a: seq<T>, b: seq<T>, c: seq<T>)
    ensures (a + b) + c == a + (b + c)
  {
  }

  lemma Regroup<T>(a: seq<T>, s: seq<T>, k: nat)
    requires k <= |s|
    ensures (a + s[..k]) + s[k..] == a + s
  {
    assert s[..k] + s[k..] == s;
  }

  lemma Assoc4<T>(a: seq<T>, b: seq<T>, c: seq<T>, d: seq<T>)
    ensures a + (b + c + d) == a + b + c + d
  {
    Assoc(a, b + c, d);
    Assoc(a, b, c);
  }

  /** 256 to the power `width`: the number of values `width` bytes can hold. */
  function Span(width: nat): (p: nat)
    ensures p > 0
  {
    if width == 0 then 1 else 256 * Span(width - 1)
  }

  /** The low `width` bytes of `n`, least significant byte first. */
  function ToLE(n: nat, width: nat): (s: seq<Byte>)
    ensures |s| == width
    decreases width, n
  {
    if width == 0 then [] else [n % 256] + ToLE(n / 256, width - 1)
  }

  function FromLE(s: seq<Byte>): (n: nat)
    ensures n < Span(|s|)
  {
    if s == [] then 0 else s[0] + 256 * FromLE(s[1..])
  }

  /** Storing a number in `width` bytes and loading it back keeps it modulo `Span(width)`:
      the store truncates, exactly as the assignment to a narrower unsigned integer does. */
  lemma {:induction false} LoadAfterStore(n: nat, width: nat)
    ensures FromLE(ToLE(n, width)) == n % Span(width)
    decreases width
  {
    if width > 0 {
      LoadAfterStore(n / 256, width - 1);
      assert ToLE(n, width)[1..] == ToLE(n / 256, width - 1);
      ModSplit(n, Span(width - 1));
    }
  }

  lemma SmallMod(n: nat, d: nat)
    requires n < d
    ensures n % d == n
  {
    ModUnique(n, d, 0, n);
  }

  lemma ModSplit(n: nat, p: nat)
    requires p > 0
    ensures n % (256 * p) == n % 256 + 256 * ((n / 256) % p)
  {
    var q, r := n / 256, n % 256;
    var a, b := q / p, q % p;
    assert q == p * a + b;
    assert n == (256 * p) * a + (r + 256 * b) by {
      assert 256 * (p * a) == (256 * p) * a;
    }
    ModUnique(n, 256 * p, a, r + 256 * b);
  }

  /** Dividing by 256 and then by `p` is dividing by their product. */
  lemma DivSplit(n: nat, p: nat)
    requires p > 0
    ensures n / 256 / p == n / (256 * p)
  {
    var q, r := n / 256, n % 256;
    var a, b := q / p, q % p;
    assert q == p * a + b;
    assert n == (256 * p) * a + (r + 256 * b) by {
      assert 256 * (p * a) == (256 * p) * a;
    }
    ModUnique(n, 256 * p, a, r + 256 * b);
  }

  lemma ModUnique(n: nat, d: nat, q: nat, r: nat)
    requires d > 0 && r < d && n == d * q + r
    ensures n % d == r && n / d == q
  {
    var k := q - n / d;
    assert d * k == n % d - r by {
      assert d * k == d * q - d * (n / d);
    }
    if k > 0 {
      AtLeastOnce(d, k);
    } else if k < 0 {
      AtLeastOnce(d, -k);
    }
  }

  lemma {:induction false} AtLeastOnce(d: int, k: nat)
    requires k > 0 && d > 0
    ensures d * k >= d
  {
    if k > 1 {
      AtLeastOnce(d, k - 1);
      assert d * k == d * (k - 1) + d;
    }
  }

  /** Conversely every byte string is the representation of the number it loads as. */
  lemma {:induction false} StoreAfterLoad(s: seq<Byte>)
    ensures ToLE(FromLE(s), |s|) == s
  {
    if s != [] {
      var head, tail := s[0], s[1..];
      StoreAfterLoad(tail);
      var n := head + 256 * FromLE(tail);
      assert n % 256 == head && n / 256 == FromLE(tail);
      assert s == [head] + tail;
    }
  }

  // ---------------------------------------------------------------- the order of the bytes

  /** Little-endian: the byte at position `i` counts multiples of 256 to the power `i`. */
  lemma {:induction false} ByteAt(n: nat, width: nat, i: nat)
    requires i < width
    ensures ToLE(n, width)[i] == n / Span(i) % 256
    decreases width
  {
    if i > 0 {
      ByteAt(n / 256, width - 1, i - 1);
      DivSplit(n, Span(i - 1));
    }
  }

  lemma MulAssoc(a: int, b: int, c: int)
    ensures a * (b * c) == (a * b) * c
  {
  }

  /** And the bytes behind the first `|a|` count multiples of 256 to that power. */
  lemma {:induction false} LoadSplit(a: seq<Byte>, b: seq<Byte>)
    ensures FromLE(a + b) == FromLE(a) + Span(|a|) * FromLE(b)
  {
    if a == [] {
      assert a + b == b;
    } else {
      var t := a[1..];
      calc {
        FromLE(a + b);
        { assert (a + b)[0] == a[0] && (a + b)[1..] == t + b; }
        a[0] + 256 * FromLE(t + b);
        { LoadSplit(t, b); }
        a[0] + 256 * (FromLE(t) + Span(|t|) * FromLE(b));
        a[0] + 256 * FromLE(t) + 256 * (Span(|t|) * FromLE(b));
        { MulAssoc(256, Span(|t|), FromLE(b)); }
        FromLE(a) + Span(|a|) * FromLE(b);
      }
    }
  }

  lemma LoadOne(x: Byte)
    ensures FromLE([x]) == x
  {
    assert [x][1..] == [];
  }

  /** The number of values of a 32-bit word. */
  const WORD: nat := 0x1_0000_0000

  /** A 32-bit word in memory; larger numbers are truncated. */
  function Word(n: nat): (s: seq<Byte>)
    ensures |s| == 4
  {
    ToLE(n, 4)
  }

  function WordValue(s: seq<Byte>): (n: nat)
    requires |s| == 4
    ensures n < WORD
  {
    SpanOfWord();
    FromLE(s)
  }

  lemma SpanOfWord()
    ensures Span(1) == 256 && Span(2) == 65536 && Span(4) == WORD
  {
    assert Span(3) == 256 * Span(2);
  }

  lemma WordRoundTrip(n: nat)
    ensures WordValue(Word(n)) == n % WORD
  {
    SpanOfWord();
    LoadAfterStore(n, 4);
  }

  lemma WordOfValue(s: seq<Byte>)
    requires |s| == 4
    ensures Word(WordValue(s)) == s
  {
    StoreAfterLoad(s);
  }

  /** A word in memory: the least significant byte comes first. */
  lemma WordBytes(n: nat)
    ensures Word(n) == [n % 256, n / 256 % 256, n / 65536 % 256, n / 16777216 % 256]
  {
    SpanOfWord();
    ByteAt(n, 4, 0);
    ByteAt(n, 4, 1);
    ByteAt(n, 4, 2);
    ByteAt(n, 4, 3);
  }

  /** And a word read from memory. */
  lemma WordOfBytes(a: Byte, b: Byte, c: Byte, d: Byte)
    ensures WordValue([a, b, c, d]) == a + 256 * b + 65536 * c + 16777216 * d
  {
    LoadOne(d);
    LoadSplit([c], [d]);
    LoadSplit([b], [c, d]);
    LoadSplit([a], [b, c, d]);
    LoadOne(a);
    LoadOne(b);
    LoadOne(c);
    SpanOfWord();
    assert [c] + [d] == [c, d] && [b] + [c, d] == [b, c, d] && [a] + [b, c, d] == [a, b, c, d];
  }
}
