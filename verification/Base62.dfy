/**
 Compact ids: a 128-bit value written in base 62, from the last digit backwards into a
 22-byte buffer.
 */
module Base62 {

  const DECIMALS := "0123456789"
  const UPPER_CASE := "ABCDEFGHIJKLMNOPQRSTUVWXYZ"
  const LOWER_CASE := "abcdefghijklmnopqrstuvwxyz"
  const ALPHABET := DECIMALS + UPPER_CASE + LOWER_CASE
  const TWO_128 := 0x1_0000_0000_0000_0000_0000_0000_0000_0000

  type u128 = x: int | 0 <= x < TWO_128

  function Pow62(k: nat): (r: nat)
    ensures r >= 1
  {
    if k == 0 then 1 else 62 * Pow62(k - 1)
  }

  /** The symbol of a digit, by ranges of character codes. */
  function Symbol(d: nat): char
    requires d < 62
  {
    if d < 10 then '0' + d as char
    else if d < 36 then 'A' + (d - 10) as char
    else 'a' + (d - 36) as char
  }

  predicate IsSymbol(c: char) {
    '0' <= c <= '9' || 'A' <= c <= 'Z' || 'a' <= c <= 'z'
  }

  function DigitOf(c: char): (d: nat)
    requires IsSymbol(c)
    ensures d < 62 && Symbol(d) == c
  {
    if c <= '9' then (c - '0') as int
    else if c <= 'Z' then (c - 'A') as int + 10
    else (c - 'a') as int + 36
  }

  lemma SymbolOrder(d: nat, e: nat)
    requires d < 62 && e < 62
    ensures IsSymbol(Symbol(d)) && DigitOf(Symbol(d)) == d
    ensures d < e <==> Symbol(d) < Symbol(e)
  {
  }

  lemma AlphabetIsSymbols(d: nat)
    requires d < 62
    ensures |ALPHABET| == 62 && ALPHABET[d] == Symbol(d)
  {
    if d < 10 {
      assert DECIMALS[d] == Symbol(d);
    } else if d < 36 {
      assert UPPER_CASE[d - 10] == Symbol(d);
    } else {
      assert LOWER_CASE[d - 36] == Symbol(d);
    }
  }

  /** The digits of a value without leading zeros; nothing at all for zero. */
  function Render(v: nat): string {
    if v == 0 then "" else Render(v / 62) + [Symbol(v % 62)]
  }

  function Encode(v: nat): string {
    if v == 0 then "0" else Render(v)
  }

  predicate AllSymbols(s: string) {
    forall c :: c in s ==> IsSymbol(c)
  }

  /** The positional value of a string of symbols. */
  function Decode(s: string): nat
    requires AllSymbols(s)
  {
    if s == "" then 0 else Decode(s[..|s| - 1]) * 62 + DigitOf(s[|s| - 1])
  }

  /** Strings that are the encoding of something: no needless leading zero. */
  predicate Canonical(s: string) {
    AllSymbols(s) && s != "" && (s == "0" || s[0] != '0')
  }

  // ---------------------------------------------------------------------------

  method EncodeBase62(value: u128) returns (s: string)
    ensures s == Encode(value)
  {
    hide Consumed, Symbol, Render, Pow62;
    if value == 0 {
      return "0";
    }
    var buf := new char[22](_ => '\0');
    var index: nat := buf.Length;
    var rest: nat := value;
    NothingWritten(value, buf[index..]);
    while rest > 0
      invariant index <= 22
      invariant Writing(value, rest, index, buf[index..])
    {
      SpaceLeft(value, rest, index, buf[index..]);
      WriteDigit(value, rest, index, buf[index..]);
      var symbol := AlphabetAt(rest % 62);
      ghost var done := buf[index..];
      index := index - 1;
      buf[index] := symbol;
      assert buf[index..] == [Symbol(rest % 62)] + done;
      rest := rest / 62;
    }
    s := buf[index..];
    AllWritten(value, index, s);
  }

  /** The loop has split off the digits in done, and rest is what remains of the value. */
  ghost predicate Writing(value: u128, rest: nat, index: nat, done: string) {
    index <= 22 && Consumed(rest, 22 - index) <= value && Render(value) == Render(rest) + done
  }

  lemma NothingWritten(value: u128, done: string)
    requires done == ""
    ensures Writing(value, value, 22, done)
  {
    assert Render(value) + "" == Render(value);
  }

  lemma SpaceLeft(value: u128, rest: nat, index: nat, done: string)
    requires Writing(value, rest, index, done) && rest > 0
    ensures index > 0
  {
    BufferSuffices(value, rest, 22 - index);
  }

  lemma WriteDigit(value: u128, rest: nat, index: nat, done: string)
    requires Writing(value, rest, index, done) && rest > 0 && index > 0
    ensures Writing(value, rest / 62, index - 1, [Symbol(rest % 62)] + done)
  {
    hide Consumed, Symbol;
    DivideDown(rest, 22 - index);
    assert Render(rest) + done == Render(rest / 62) + ([Symbol(rest % 62)] + done);
  }

  lemma AllWritten(value: u128, index: nat, done: string)
    requires Writing(value, 0, index, done) && value > 0
    ensures done == Encode(value)
  {
    assert Render(0) == "";
    assert "" + done == done;
  }

  method AlphabetAt(d: nat) returns (c: char)
    requires d < 62
    ensures c == Symbol(d)
  {
    AlphabetIsSymbols(d);
    c := ALPHABET[d];
  }

  lemma Capacity()
    ensures Pow62(22) > TWO_128
  {
    assert Pow62(4) == 14776336;
    assert Pow62(8) == 218340105584896;
    assert Pow62(12) == 3226266762397899821056;
    assert Pow62(16) == 47672401706823533450263330816;
    assert Pow62(20) == 704423425546998022968330264616370176;
  }

  /** What the remaining value stands for after used digits have been split off. */
  function Consumed(rest: nat, used: nat): nat {
    rest * Pow62(used)
  }

  /** While digits remain, so does space in the buffer. */
  lemma BufferSuffices(value: u128, rest: nat, used: nat)
    requires rest > 0 && used <= 22 && Consumed(rest, used) <= value
    ensures used < 22
  {
    Capacity();
    AtLeastOnce(rest, Pow62(used));
  }

  lemma AtLeastOnce(n: nat, p: nat)
    requires n > 0
    ensures n * p >= p
  {
  }

  lemma DivideDown(rest: nat, used: nat)
    ensures Consumed(rest / 62, used + 1) <= Consumed(rest, used)
  {
    var q, p := rest / 62, Pow62(used);
    assert q * (62 * p) == (q * 62) * p;
    assert (rest - q * 62) * p >= 0;
    assert (rest - q * 62) * p == rest * p - (q * 62) * p;
  }

  // ---------------------------------------------------------------------------

  lemma {:induction false} RenderDecodes(v: nat)
    ensures AllSymbols(Render(v)) && Decode(Render(v)) == v
  {
    if v > 0 {
      RenderDecodes(v / 62);
      SymbolOrder(v % 62, v % 62);
      assert Render(v)[..|Render(v)| - 1] == Render(v / 62);
    }
  }

  lemma {:induction false} NoLeadingZero(v: nat)
    requires v > 0
    ensures Render(v) != "" && Render(v)[0] != '0'
  {
    if v >= 62 {
      NoLeadingZero(v / 62);
    } else {
      assert Render(v / 62) == "";
      SymbolOrder(0, v);
    }
  }

  /** Decoding recovers the value, and encodings are canonical; so encoding is injective. */
  lemma DecodeEncode(v: nat)
    ensures Canonical(Encode(v)) && Decode(Encode(v)) == v
  {
    if v == 0 {
      assert Decode("") == 0;
    } else {
      RenderDecodes(v);
      NoLeadingZero(v);
    }
  }

  lemma SplitDigit(h: nat, d: nat)
    requires d < 62
    ensures (h * 62 + d) / 62 == h && (h * 62 + d) % 62 == d
  {
  }

  lemma {:induction false} RenderOfDecode(s: string)
    requires AllSymbols(s) && (s == "" || s[0] != '0')
    ensures Render(Decode(s)) == s
    ensures s != "" ==> Decode(s) > 0
  {
    if s != "" {
      var n := |s| - 1;
      RenderOfDecode(s[..n]);
      SplitDigit(Decode(s[..n]), DigitOf(s[n]));
      assert s == s[..n] + [s[n]];
    }
  }

  /** Every canonical string is the encoding of its value. */
  lemma EncodeDecode(s: string)
    requires Canonical(s)
    ensures Encode(Decode(s)) == s
  {
    if s == "0" {
      assert Decode("") == 0 && Decode("0") == 0;
    } else {
      RenderOfDecode(s);
    }
  }

  /** An encoding has at most k symbols exactly when the value is below 62^k. */
  lemma {:induction false} RenderLength(v: nat, k: nat)
    ensures |Render(v)| <= k <==> v < Pow62(k)
  {
    if k > 0 && v > 0 {
      RenderLength(v / 62, k - 1);
    } else if v > 0 {
      assert |Render(v)| > 0;
    }
  }

  lemma IdLength(v: u128)
    ensures 1 <= |Encode(v)| <= 22
  {
    Capacity();
    RenderLength(v, 22);
    if v > 0 {
      NoLeadingZero(v);
    }
  }

  // ---------------------------------------------------------------------------
  // Order.

  /** Shorter strings first; equal lengths by the first differing symbol. */
  ghost predicate ShortLex(s: string, t: string) {
    |s| < |t| || (|s| == |t| && exists i: nat :: DiffersAt(s, t, i))
  }

  ghost predicate DiffersAt(s: string, t: string, i: nat) {
    i < |s| && i < |t| && s[..i] == t[..i] && s[i] < t[i]
  }

  lemma FirstDifference(s: string, t: string, i: nat, j: nat)
    requires DiffersAt(s, t, i)
    ensures !DiffersAt(t, s, j)
  {
    if j < i {
      assert s[..i][j] == t[..i][j];
    } else if i < j <= |s| && j <= |t| {
      assert s[..j][i] != t[..j][i];
    }
  }

  lemma ShortLexAsymmetric(s: string, t: string)
    requires ShortLex(s, t)
    ensures s != t && !ShortLex(t, s)
  {
    if |s| == |t| {
      var i: nat :| DiffersAt(s, t, i);
      forall j: nat
        ensures !DiffersAt(t, s, j)
      {
        FirstDifference(s, t, i, j);
      }
    }
  }

  lemma DiffersEarlier(s: string, t: string, c: char, d: char)
    requires |s| == |t| && ShortLex(s, t)
    ensures ShortLex(s + [c], t + [d])
  {
    var i: nat :| DiffersAt(s, t, i);
    assert (s + [c])[..i] == s[..i] && (t + [d])[..i] == t[..i];
    assert DiffersAt(s + [c], t + [d], i);
  }

  lemma {:induction false} RenderOrder(v: nat, w: nat)
    requires v < w
    ensures ShortLex(Render(v), Render(w))
  {
    var s, t := Render(v), Render(w);
    RenderLength(v, |t|);
    RenderLength(w, |t|);
    if |s| == |t| {
      SymbolOrder(v % 62, w % 62);
      var s', t' := Render(v / 62), Render(w / 62);
      if v / 62 == w / 62 {
        assert DiffersAt(s, t, |s'|);
      } else {
        RenderOrder(v / 62, w / 62);
        DiffersEarlier(s', t', Symbol(v % 62), Symbol(w % 62));
      }
    }
  }

  /** Sorting ids in shortlex order sorts them by value. */
  lemma EncodeOrder(v: nat, w: nat)
    ensures ShortLex(Encode(v), Encode(w)) <==> v < w
  {
    if v < w {
      EncodeForward(v, w);
    } else if w < v {
      EncodeForward(w, v);
      ShortLexAsymmetric(Encode(w), Encode(v));
    }
  }

  lemma EncodeForward(v: nat, w: nat)
    requires v < w
    ensures ShortLex(Encode(v), Encode(w))
  {
    if v == 0 {
      NoLeadingZero(w);
      RenderDecodes(w);
      if |Render(w)| == 1 {
        assert Render(w)[0] in Render(w);
        assert DiffersAt("0", Render(w), 0);
      }
    } else {
      RenderOrder(v, w);
    }
  }
}
