/** Bytes, big-endian numbers, and the byte swap that turns host-order words into big-endian ones. */
module ByteOrder {

  type Byte = b: int | 0 <= b < 256

  /// Big-endian numbers

  function Value(bytes: seq<Byte>): nat {
    if bytes == [] then 0 else Value(bytes[..|bytes| - 1]) * 256 + bytes[|bytes| - 1]
  }

  /** The last `width` bytes of a number, most significant first. */
  function Digits(value: nat, width: nat): (r: seq<Byte>)
    ensures |r| == width
  {
    if width == 0 then [] else Digits(value / 256, width - 1) + [value % 256]
  }

  function Power(width: nat): (r: nat)
    ensures r > 0
  {
    if width == 0 then 1 else 256 * Power(width - 1)
  }

  lemma {:induction false} ValueOfDigits(value: nat, width: nat)
    requires value < Power(width)
    ensures Value(Digits(value, width)) == value
  {
    if width > 0 {
      ValueOfDigits(value / 256, width - 1);
    }
  }

  lemma {:induction false} DigitsOfValue(bytes: seq<Byte>)
    ensures Value(bytes) < Power(|bytes|)
    ensures Digits(Value(bytes), |bytes|) == bytes
  {
    if bytes != [] {
      var front, last := bytes[..|bytes| - 1], bytes[|bytes| - 1];
      DigitsOfValue(front);
      assert Value(bytes) / 256 == Value(front) && Value(bytes) % 256 == last;
      assert bytes == front + [last];
    }
  }

  lemma ShiftSplits(high: nat, p: nat, low: nat)
    ensures (high * (256 * p) + low) / 256 == high * p + low / 256
    ensures (high * (256 * p) + low) % 256 == low % 256
  {
    var q := high * p;
    assert high * (256 * p) == 256 * q;
    DivideShifted(q, low);
  }

  lemma DivideShifted(q: nat, low: nat)
    ensures (256 * q + low) / 256 == q + low / 256 && (256 * q + low) % 256 == low % 256
  {
  }

  lemma LastDigit(value: nat, width: nat)
    requires width > 0
    ensures Digits(value, width) == Digits(value / 256, width - 1) + [value % 256]
  {
  }

  lemma Associate(x: seq<Byte>, y: seq<Byte>, z: seq<Byte>)
    ensures x + (y + z) == (x + y) + z
  {
  }

  lemma {:induction false} DigitsConcat(high: nat, low: nat, m: nat, n: nat)
    requires low < Power(n)
    ensures Digits(high * Power(n) + low, m + n) == Digits(high, m) + Digits(low, n)
    decreases n
  {
    if n > 0 {
      ShiftSplits(high, Power(n - 1), low);
      DigitsConcat(high, low / 256, m, n - 1);
      LastDigit(high * Power(n) + low, m + n);
      LastDigit(low, n);
      Associate(Digits(high, m), Digits(low / 256, n - 1), [low % 256]);
    }
  }

  /// The byte swap

  /** Where the byte at `a` sits within its word. */
  function Mirror(a: nat): nat {
    a - 2 * (a % 4) + 3
  }

  lemma MirrorTwice(a: nat)
    ensures Mirror(Mirror(a)) == a && Mirror(a) / 4 == a / 4
  {
  }

  lemma MirrorIs(word: nat, k: nat)
    requires k < 4
    ensures Mirror(4 * word + k) == 4 * word + 3 - k
  {
  }

  /** Each whole word of `s` with its bytes reversed; what is left over at the end stays. */
  function Swapped(s: seq<Byte>): (r: seq<Byte>)
    ensures |r| == |s|
  {
    if |s| < 4 then s else [s[3], s[2], s[1], s[0]] + Swapped(s[4..])
  }

  lemma {:induction false} SwappedAt(s: seq<Byte>, word: nat, k: nat)
    requires 4 * word + 4 <= |s| && k < 4
    ensures Swapped(s)[4 * word + k] == s[4 * word + 3 - k]
  {
    if word > 0 {
      SwappedAt(s[4..], word - 1, k);
    }
  }

  lemma {:induction false} SwappedTwice(s: seq<Byte>)
    ensures Swapped(Swapped(s)) == s
  {
    if |s| >= 4 {
      SwappedTwice(s[4..]);
      assert Swapped(s)[4..] == Swapped(s[4..]);
    }
  }

  lemma FirstWord(s: seq<Byte>, t: seq<Byte>)
    requires |s| >= 4
    ensures Swapped(s + t) == [s[3], s[2], s[1], s[0]] + Swapped(s[4..] + t)
  {
    assert (s + t)[4..] == s[4..] + t;
  }

  lemma {:induction false} SwappedConcat(s: seq<Byte>, t: seq<Byte>, words: nat)
    requires |s| == 4 * words
    ensures Swapped(s + t) == Swapped(s) + Swapped(t)
    decreases |s|
  {
    if words == 0 {
      assert s + t == t;
    } else {
      FirstWord(s, t);
      SwappedConcat(s[4..], t, words - 1);
      Associate([s[3], s[2], s[1], s[0]], Swapped(s[4..]), Swapped(t));
    }
  }

  lemma SwappedThree(x: seq<Byte>, y: seq<Byte>, z: seq<Byte>, start: nat, words: nat)
    requires |x| == 4 * start && |y| == 4 * words
    ensures Swapped(x + y + z) == Swapped(x) + Swapped(y) + Swapped(z)
  {
    SwappedConcat(x + y, z, start + words);
    SwappedConcat(x, y, start);
  }

  /** Swapping a stretch of whole words is a stretch of the swap. */
  lemma SwappedSlice(s: seq<Byte>, start: nat, words: nat)
    requires 4 * start + 4 * words <= |s|
    ensures Swapped(s[4 * start..][..4 * words]) == Swapped(s)[4 * start..][..4 * words]
  {
    var x, y, z := s[..4 * start], s[4 * start..][..4 * words], s[4 * start + 4 * words..];
    CutInThree(s, 4 * start, 4 * words);
    SwappedThree(x, y, z, start, words);
    MiddlePart(Swapped(x), Swapped(y), Swapped(z));
  }

  lemma CutInThree(s: seq<Byte>, i: nat, n: nat)
    requires i + n <= |s|
    ensures s == s[..i] + s[i..][..n] + s[i + n..]
  {
  }

  lemma MiddlePart(x: seq<Byte>, y: seq<Byte>, z: seq<Byte>)
    ensures (x + y + z)[|x|..][..|y|] == y
  {
  }

  lemma UpdateMiddle(x: seq<Byte>, y: seq<Byte>, z: seq<Byte>, k: nat, b: Byte)
    requires k < |y|
    ensures (x + y + z)[|x| + k := b] == x + y[k := b] + z
  {
  }

  lemma WordUpdate(word: seq<Byte>, k: nat, b: Byte)
    requires |word| == 4 && k < 4
    ensures Swapped(word[3 - k := b]) == Swapped(word)[k := b]
  {
    assert Swapped(word) == [word[3], word[2], word[1], word[0]];
    var t := word[3 - k := b];
    assert Swapped(t) == [t[3], t[2], t[1], t[0]];
  }

  lemma SwappedUpdate(s: seq<Byte>, word: nat, k: nat, b: Byte)
    requires 4 * word + 4 <= |s| && k < 4
    ensures Swapped(s[4 * word + 3 - k := b]) == Swapped(s)[4 * word + k := b]
  {
    var at := 4 * word;
    var x, y, z := s[..at], s[at..][..4], s[at + 4..];
    CutInThree(s, at, 4);
    UpdateMiddle(x, y, z, 3 - k, b);
    WordUpdate(y, k, b);
    SwappedThree(x, y, z, word, 1);
    SwappedThree(x, y[3 - k := b], z, word, 1);
    UpdateMiddle(Swapped(x), Swapped(y), Swapped(z), k, b);
  }

  /// Stretches of a buffer

  /** `was` with a block written at `at`. */
  ghost function Spliced(was: seq<Byte>, at: nat, block: seq<Byte>): (r: seq<Byte>)
    requires at + |block| <= |was|
    ensures |r| == |was|
  {
    was[..at] + block + was[at + |block|..]
  }

  lemma SpliceTwice(was: seq<Byte>, at: nat, x: seq<Byte>, y: seq<Byte>)
    requires at + |x| + |y| <= |was|
    ensures Spliced(Spliced(was, at, x), at + |x|, y) == Spliced(was, at, x + y)
  {
    var once := Spliced(was, at, x);
    assert once[..at + |x|] == was[..at] + x;
    assert once[at + |x| + |y|..] == was[at + |x| + |y|..];
    assert (was[..at] + x) + y == was[..at] + (x + y);
  }

  lemma SpliceNothing(was: seq<Byte>, at: nat)
    requires at <= |was|
    ensures Spliced(was, at, []) == was
  {
  }

  /** `was` with the `n` bytes from `from` swapped. */
  ghost function PartSwapped(was: seq<Byte>, from: nat, n: nat): (r: seq<Byte>)
    requires from + n <= |was|
    ensures |r| == |was|
  {
    Spliced(was, from, Swapped(was[from..][..n]))
  }

  function WordReversed(s: seq<Byte>, at: nat): (r: seq<Byte>)
    requires at + 4 <= |s|
    ensures |r| == 4
  {
    [s[at + 3], s[at + 2], s[at + 1], s[at]]
  }

  lemma SwapStep(was: seq<Byte>, from: nat, words: nat)
    requires from + 4 * words + 4 <= |was|
    ensures
      var now, at := PartSwapped(was, from, 4 * words), from + 4 * words;
      Spliced(now, at, WordReversed(now, at)) == PartSwapped(was, from, 4 * words + 4)
  {
    var at := from + 4 * words;
    var done, word := was[from..][..4 * words], was[at..][..4];
    var now := PartSwapped(was, from, 4 * words);
    assert now[at..] == was[at..];
    WordBehind(was, now, at);
    SpliceTwice(was, from, Swapped(done), WordReversed(was, at));
    SwappedConcat(done, word, words);
    assert was[from..][..4 * words + 4] == done + word;
    assert Swapped(word) == WordReversed(was, at) + Swapped(word[4..]);
    assert WordReversed(was, at) + [] == WordReversed(was, at);
  }

  lemma WordBehind(s: seq<Byte>, t: seq<Byte>, at: nat)
    requires at + 4 <= |s| == |t| && s[at..] == t[at..]
    ensures WordReversed(s, at) == WordReversed(t, at)
  {
    assert forall i :: 0 <= i < 4 ==> s[at..][i] == t[at..][i];
  }

  lemma SwapRest(was: seq<Byte>, from: nat, words: nat, rest: nat)
    requires from + 4 * words + rest <= |was| && rest < 4
    ensures PartSwapped(was, from, 4 * words + rest) == PartSwapped(was, from, 4 * words)
  {
    var done, left := was[from..][..4 * words], was[from + 4 * words..][..rest];
    SwappedConcat(done, left, words);
    assert was[from..][..4 * words + rest] == done + left;
    SpliceTwice(was, from, Swapped(done), left);
    SpliceSame(Spliced(was, from, Swapped(done)), from + 4 * words, left);
  }

  lemma SpliceSame(was: seq<Byte>, at: nat, block: seq<Byte>)
    requires at + |block| <= |was| && was[at..][..|block|] == block
    ensures Spliced(was, at, block) == was
  {
  }

  /** Swaps the bytes of each whole word of the `n` bytes from `from`. */
  method BSwap32(a: array<Byte>, from: nat, n: nat)
    requires from + n <= a.Length
    modifies a
    ensures a[..] == PartSwapped(old(a[..]), from, n)
  {
    WholeWords(n);
    var whole := n - n % 4;
    SwapWords(a, from, whole, n / 4);
    SwapRest(old(a[..]), from, n / 4, n - whole);
  }

  lemma WholeWords(n: nat)
    ensures n - n % 4 == 4 * (n / 4) && 0 <= n % 4 < 4
  {
  }

  method SwapWords(a: array<Byte>, from: nat, n: nat, ghost words: nat)
    requires from + n <= a.Length && n == 4 * words
    modifies a
    ensures a[..] == PartSwapped(old(a[..]), from, n)
  {
    var k := 0;
    ghost var w, was := 0, a[..];
    SpliceNothing(was, from);
    while k < n
      invariant k == 4 * w && w <= words
      invariant a[..] == PartSwapped(was, from, k)
    {
      SwapNext(a, from + k, was, from, w);
      k, w := k + 4, w + 1;
    }
  }

  method SwapNext(a: array<Byte>, at: nat, ghost was: seq<Byte>, ghost from: nat, ghost words: nat)
    requires at == from + 4 * words && at + 4 <= |was| == a.Length && a[..] == PartSwapped(was, from, 4 * words)
    modifies a
    ensures a[..] == PartSwapped(was, from, 4 * words + 4)
  {
    SwapStep(was, from, words);
    SwapWord(a, at);
  }

  method SwapWord(a: array<Byte>, at: nat)
    requires at + 4 <= a.Length
    modifies a
    ensures a[..] == Spliced(old(a[..]), at, WordReversed(old(a[..]), at))
  {
    var tmp := a[at];
    a[at] := a[at + 3];
    a[at + 3] := tmp;
    tmp := a[at + 1];
    a[at + 1] := a[at + 2];
    a[at + 2] := tmp;
  }

  lemma SpliceNext(was: seq<Byte>, at: nat, block: seq<Byte>, i: nat)
    requires at + |block| <= |was| && i < |block|
    ensures Spliced(was, at, block[..i])[at + i := block[i]] == Spliced(was, at, block[..i + 1])
  {
  }

  /** Copies forward, one byte after the other. */
  method CopyN(src: array<Byte>, from: nat, n: nat, dst: array<Byte>, to: nat)
    requires src != dst && from + n <= src.Length && to + n <= dst.Length
    modifies dst
    ensures dst[..] == Spliced(old(dst[..]), to, src[from..from + n])
  {
    ghost var was, block := dst[..], src[from..from + n];
    SpliceNothing(was, to);
    for i := 0 to n
      invariant src[from..from + n] == block && dst[..] == Spliced(was, to, block[..i])
    {
      SpliceNext(was, to, block, i);
      dst[to + i] := src[from + i];
    }
    assert block[..n] == block;
  }
}
