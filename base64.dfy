/**
 * Base64 as the snapshot files use it: the alphabet of section 4 of
 * RFC 4648, `=` padding, and an encoder that starts a new line before any
 * group of four characters that would push the line past a given length.
 * The decoder skips every character that is neither in the alphabet nor
 * `=`, and decodes each complete group of four symbols it collects.
 */
module Base64 {
  import opened Bytes

  /** The character of value `v`: capitals, small letters, digits, `+`, `/`. */
  function Digit(v: nat): char {
    if v < 26 then ('A' as int + v) as char
    else if v < 52 then ('a' as int + (v - 26)) as char
    else if v < 62 then ('0' as int + (v - 52)) as char
    else if v == 62 then '+' else '/'
  }

  /** `ALPHABET`: the 64 characters of the base64 alphabet, in order of value. */
  const ALPHABET: seq<char> := seq(64, (v: nat) => Digit(v))

  /** `DEFAULT_LINE_LENGTH`. */
  const DEFAULT_LINE_LENGTH: int := 76

  /** A decoded symbol: the value of an alphabet character, or -1 for `=`. */
  type Sextet = v: int | -1 <= v < 64

  lemma CapitalsFirst()
    ensures ALPHABET[..26] == "ABCDEFGHIJKLMNOPQRSTUVWXYZ"
  {
  }

  lemma SmallLettersNext()
    ensures ALPHABET[26..52] == "abcdefghijklmnopqrstuvwxyz"
  {
  }

  lemma DigitsLast()
    ensures ALPHABET[52..] == "0123456789+/"
  {
  }

  /** The alphabet is the one of table 1 in section 4 of RFC 4648. */
  lemma AlphabetIsRfc4648()
    ensures ALPHABET == "ABCDEFGHIJKLMNOPQRSTUVWXYZ" + "abcdefghijklmnopqrstuvwxyz" + "0123456789+/"
  {
    CapitalsFirst();
    SmallLettersNext();
    DigitsLast();
    assert ALPHABET == ALPHABET[..26] + ALPHABET[26..52] + ALPHABET[52..];
  }

  /**
   * `ALPHABET.indexOf(c)`: the position of `c` in the alphabet, -1 when it
   * is not there. The alphabet has no repeated character, so the position
   * is the only one.
   */
  function IndexOf(c: char): (r: int)
    ensures -1 <= r < 64
    ensures r >= 0 ==> Digit(r) == c
    ensures forall v: nat :: v < 64 && Digit(v) == c ==> v == r
  {
    if 'A' <= c <= 'Z' then c as int - 'A' as int
    else if 'a' <= c <= 'z' then c as int - 'a' as int + 26
    else if '0' <= c <= '9' then c as int - '0' as int + 52
    else if c == '+' then 62
    else if c == '/' then 63
    else -1
  }

  // Encoding, as a reference definition.

  /** The four 6-bit fields of the 24-bit word `b0 b1 b2`, high bits first. */
  function Fields(b0: byte, b1: byte, b2: byte): seq<int> {
    [b0 / 4, b0 % 4 * 16 + b1 / 16, b1 % 16 * 4 + b2 / 64, b2 % 64]
  }

  /** The four characters of a complete group of three bytes. */
  function Group(b0: byte, b1: byte, b2: byte): seq<char> {
    var f := Fields(b0, b1, b2);
    [Digit(f[0]), Digit(f[1]), Digit(f[2]), Digit(f[3])]
  }

  /** The last, incomplete group of one or two bytes: zero bits fill the word, `=` the missing characters. */
  function Padded(t: seq<byte>): seq<char>
    requires 1 <= |t| <= 2
  {
    if |t| == 1 then Group(t[0], 0, 0)[..2] + Padding(1) else Group(t[0], t[1], 0)[..3] + Padding(2)
  }

  /** The `=` characters that complete a tail of `n` bytes to four characters. */
  function Padding(n: nat): seq<char> {
    if n == 1 then "==" else "="
  }

  /** The newline that goes before a group when four more characters would pass the line length. */
  function Break(column: int, lineLength: int): seq<char> {
    if column + 4 > lineLength then "\n" else ""
  }

  /** The column after a group placed at `column`. */
  function NextColumn(column: int, lineLength: int): int {
    (if column + 4 > lineLength then 0 else column) + 4
  }

  /** The complete groups of `data` (whose length is a multiple of 3), wrapped. */
  function Lines(data: seq<byte>, lineLength: int): seq<char>
    requires |data| % 3 == 0
  {
    if |data| == 0 then []
    else
      var k := |data| - 3;
      Lines(data[..k], lineLength) + Break(Column(data[..k], lineLength), lineLength) + Group(data[k], data[k + 1], data[k + 2])
  }

  /** The column at which `Lines(data, lineLength)` ends. */
  function Column(data: seq<byte>, lineLength: int): int
    requires |data| % 3 == 0
  {
    if |data| == 0 then 0 else NextColumn(Column(data[..|data| - 3], lineLength), lineLength)
  }

  /** Past a multiple of 3 by less than 3, the remainder is the distance. */
  lemma Remainder(k: nat, i: nat)
    requires k % 3 == 0 && k <= i < k + 3
    ensures i % 3 == i - k && (i + 1) % 3 == (if i == k + 2 then 0 else i + 1 - k)
  {
  }

  /** One more complete group extends the wrapped groups by a possible newline and its four characters. */
  lemma LinesSnoc(data: seq<byte>, k: nat, lineLength: int)
    requires k % 3 == 0 && k + 3 <= |data|
    ensures Lines(data[..k + 3], lineLength) ==
      Lines(data[..k], lineLength) + Break(Column(data[..k], lineLength), lineLength) + Group(data[k], data[k + 1], data[k + 2])
    ensures Column(data[..k + 3], lineLength) == NextColumn(Column(data[..k], lineLength), lineLength)
  {
    assert data[..k + 3][..k] == data[..k];
  }

  /** What `encode(data, lineLength)` returns: the wrapped complete groups, then the wrapped padded tail. */
  function Encoded(data: seq<byte>, lineLength: int): seq<char> {
    var k := |data| - |data| % 3;
    Lines(data[..k], lineLength) +
    if k == |data| then [] else Break(Column(data[..k], lineLength), lineLength) + Padded(data[k..])
  }

  /** The 6-bit fields of a group, as the encoder extracts them from its word by shifting and masking. */
  lemma {:induction false} WordFields(b0: byte, b1: byte, b2: byte)
    ensures var w := b0 as int * 0x1_0000 + b1 * 0x100 + b2;
      Fields(b0, b1, b2) == [w / 0x4_0000 % 64, w / 0x1000 % 64, w / 64 % 64, w % 64]
  {
    var w := b0 as int * 0x1_0000 + b1 * 0x100 + b2;
    var hi, mid, lo := b0 / 4, b0 * 16 + b1 / 16, b0 * 0x400 + b1 * 4 + b2 / 64;
    Split(w, 0x4_0000, hi, b0 % 4 * 0x1_0000 + b1 * 0x100 + b2);
    Split(hi, 64, 0, hi);
    Split(w, 0x1000, mid, b1 % 16 * 0x100 + b2);
    Split(mid, 64, hi, b0 % 4 * 16 + b1 / 16);
    Split(w, 64, lo, b2 % 64);
    Split(lo, 64, mid, b1 % 16 * 4 + b2 / 64);
  }

  /** Division by one of the encoder's shifts, with remainder, from a decomposition of the dividend. */
  lemma Split(n: int, d: int, q: int, r: int)
    requires d == 64 || d == 0x1000 || d == 0x4_0000
    requires 0 <= r < d && n == q * d + r
    ensures n / d == q && n % d == r
  {
    if d == 64 {
      assert n == q * 64 + r;
    } else if d == 0x1000 {
      assert n == q * 0x1000 + r;
    } else {
      assert n == q * 0x4_0000 + r;
    }
  }

  /**
   * `encode(data, lineLength)`: the bytes are shifted into a word, and every
   * third byte flushes it as four characters, after a newline when the
   * column would pass the line length; a tail of one or two bytes is
   * shifted up to a full word and written as two or three characters and
   * padding.
   */
  method Encode(data: seq<byte>, lineLength: int) returns (s: seq<char>)
    ensures s == Encoded(data, lineLength)
  {
    s := [];
    var column := 0;
    var word: int := 0;
    ghost var k := 0;
    for i := 0 to |data|
      invariant k % 3 == 0 && k <= i <= k + 2
      invariant s == Lines(data[..k], lineLength) && column == Column(data[..k], lineLength)
      invariant word == if i == k then 0 else if i == k + 1 then data[k] as int else data[k] as int * 0x100 + data[k + 1]
    {
      Remainder(k, i);
      word := word * 256 + data[i];
      if i % 3 == 2 {
        Flush(data, k, lineLength, s, column, word);
        s, column := Emit(s, column, lineLength, word, 4);
        word := 0;
        k := i + 1;
      }
    }
    Remainder(k, |data|);
    if |data| % 3 == 2 {
      word := word * 0x100;
      TailOfTwo(data, lineLength, k, s, column, word);
      s, column := Emit(s, column, lineLength, word, 3);
      s := s + ['='];
    } else if |data| % 3 == 1 {
      word := word * 0x1_0000;
      TailOfOne(data, lineLength, k, s, column, word);
      s, column := Emit(s, column, lineLength, word, 2);
      s := s + ['=', '='];
    } else {
      WholeGroups(data, lineLength);
      assert data[..k] == data;
    }
  }

  /**
   * Appends the first `count` characters of a word's four, after a newline
   * when the column would pass the line length.
   */
  method Emit(s: seq<char>, column: int, lineLength: int, word: int, count: nat) returns (s': seq<char>, column': int)
    requires 0 <= word && 2 <= count <= 4
    ensures s' == s + Break(column, lineLength) + [ALPHABET[word / 0x4_0000 % 64], ALPHABET[word / 0x1000 % 64], ALPHABET[word / 64 % 64], ALPHABET[word % 64]][..count]
    ensures column' == NextColumn(column, lineLength)
  {
    s', column' := s, column;
    if column' + 4 > lineLength {
      s' := s' + ['\n'];
      column' := 0;
    }
    s' := s' + [ALPHABET[word / 0x4_0000 % 64], ALPHABET[word / 0x1000 % 64]];
    if count >= 3 {
      s' := s' + [ALPHABET[word / 64 % 64]];
    }
    if count == 4 {
      s' := s' + [ALPHABET[word % 64]];
    }
    column' := column' + 4;
  }

  /** Flushing the word of a complete group extends the wrapped groups by that group. */
  lemma Flush(data: seq<byte>, k: nat, lineLength: int, s: seq<char>, column: int, word: int)
    requires k % 3 == 0 && k + 3 <= |data|
    requires s == Lines(data[..k], lineLength) && column == Column(data[..k], lineLength)
    requires word == (data[k] as int * 0x100 + data[k + 1]) * 0x100 + data[k + 2]
    ensures s + Break(column, lineLength) + [ALPHABET[word / 0x4_0000 % 64], ALPHABET[word / 0x1000 % 64], ALPHABET[word / 64 % 64], ALPHABET[word % 64]]
      == Lines(data[..k + 3], lineLength)
    ensures NextColumn(column, lineLength) == Column(data[..k + 3], lineLength)
  {
    LinesSnoc(data, k, lineLength);
    GroupOfWord(data[k], data[k + 1], data[k + 2]);
  }

  /** A complete group, as the encoder's word yields it. */
  lemma GroupOfWord(b0: byte, b1: byte, b2: byte)
    ensures var w := b0 as int * 0x1_0000 + b1 * 0x100 + b2;
      Group(b0, b1, b2) == [ALPHABET[w / 0x4_0000 % 64], ALPHABET[w / 0x1000 % 64], ALPHABET[w / 64 % 64], ALPHABET[w % 64]]
  {
    WordFields(b0, b1, b2);
  }

  /** The encoding of data ending in an incomplete group of two bytes, as the encoder's word yields it. */
  lemma TailOfTwo(data: seq<byte>, lineLength: int, k: nat, s: seq<char>, column: int, word: int)
    requires |data| % 3 == 2 && k == |data| - 2
    requires s == Lines(data[..k], lineLength) && column == Column(data[..k], lineLength)
    requires word == (data[k] as int * 0x100 + data[k + 1]) * 0x100
    ensures Encoded(data, lineLength) == s + Break(column, lineLength) +
      [ALPHABET[word / 0x4_0000 % 64], ALPHABET[word / 0x1000 % 64], ALPHABET[word / 64 % 64], ALPHABET[word % 64]][..3] + ['=']
  {
    assert Encoded(data, lineLength) == s + Break(column, lineLength) + Padded(data[k..]);
    assert data[k..] == [data[k], data[k + 1]];
    PaddedOfWord(data[k..], word);
  }

  /** The encoding of data ending in an incomplete group of one byte, as the encoder's word yields it. */
  lemma TailOfOne(data: seq<byte>, lineLength: int, k: nat, s: seq<char>, column: int, word: int)
    requires |data| % 3 == 1 && k == |data| - 1
    requires s == Lines(data[..k], lineLength) && column == Column(data[..k], lineLength)
    requires word == data[k] as int * 0x1_0000
    ensures Encoded(data, lineLength) == s + Break(column, lineLength) +
      [ALPHABET[word / 0x4_0000 % 64], ALPHABET[word / 0x1000 % 64], ALPHABET[word / 64 % 64], ALPHABET[word % 64]][..2] + ['=', '=']
  {
    assert Encoded(data, lineLength) == s + Break(column, lineLength) + Padded(data[k..]);
    assert data[k..] == [data[k]];
    PaddedOfWord(data[k..], word);
  }

  /** A padded tail, as the encoder's word, shifted up to a full group, yields it. */
  lemma PaddedOfWord(t: seq<byte>, word: int)
    requires 1 <= |t| <= 2
    requires word == if |t| == 1 then t[0] as int * 0x1_0000 else (t[0] as int * 0x100 + t[1]) * 0x100
    ensures var chars := [ALPHABET[word / 0x4_0000 % 64], ALPHABET[word / 0x1000 % 64], ALPHABET[word / 64 % 64], ALPHABET[word % 64]];
      Padded(t) == if |t| == 1 then chars[..2] + ['=', '='] else chars[..3] + ['=']
  {
    if |t| == 1 {
      GroupOfWord(t[0], 0, 0);
    } else {
      GroupOfWord(t[0], t[1], 0);
    }
  }

  // Decoding, as a reference definition.

  /** What the decoder keeps of one character: its value, -1 for `=`, nothing for any other character. */
  function Symbol(c: char): seq<Sextet> {
    if c == '=' then [-1] else if IndexOf(c) >= 0 then [IndexOf(c)] else []
  }

  /** The symbols the decoder collects from a string, in order. */
  function Symbols(s: seq<char>): seq<Sextet> {
    if |s| == 0 then [] else Symbols(s[..|s| - 1]) + Symbol(s[|s| - 1])
  }

  /** The symbols of two strings put together are the symbols of each, put together. */
  lemma {:induction false} SymbolsAppend(a: seq<char>, b: seq<char>)
    ensures Symbols(a + b) == Symbols(a) + Symbols(b)
    decreases |b|
  {
    if |b| == 0 {
      assert a + b == a;
    } else {
      var b' := b[..|b| - 1];
      assert (a + b)[..|a + b| - 1] == a + b';
      SymbolsAppend(a, b');
    }
  }

  /**
   * The bytes of one group of four symbols: none when either of the first
   * two is `=`, one more for each following symbol up to the first `=`.
   * The shifted fields never overlap, so or-ing them is adding them.
   */
  function Quartet(q: seq<Sextet>): seq<byte>
    requires |q| == 4
  {
    var v0, v1, v2, v3: int := q[0], q[1], q[2], q[3];
    if v0 == -1 || v1 == -1 then []
    else if v2 == -1 then [v0 * 4 + v1 / 16]
    else if v3 == -1 then [v0 * 4 + v1 / 16, v1 % 16 * 16 + v2 / 4]
    else [v0 * 4 + v1 / 16, v1 % 16 * 16 + v2 / 4, v2 % 4 * 64 + v3]
  }

  /** The bytes of every complete group of four symbols; an incomplete last group yields nothing. */
  function Quartets(q: seq<Sextet>): seq<byte> {
    if |q| < 4 then [] else Quartet(q[..4]) + Quartets(q[4..])
  }

  /** What `decode(s)` returns. */
  function Decoded(s: seq<char>): seq<byte> {
    Quartets(Symbols(s))
  }

  /** A group of four symbols after whole groups adds its bytes. */
  lemma {:induction false} QuartetsSnoc(q: seq<Sextet>, g: seq<Sextet>)
    requires |q| % 4 == 0 && |g| == 4
    ensures Quartets(q + g) == Quartets(q) + Quartet(g)
    decreases |q|
  {
    if |q| == 0 {
      assert q + g == g && g[..4] == g && g[4..] == [];
    } else {
      assert (q + g)[..4] == q[..4] && (q + g)[4..] == q[4..] + g;
      QuartetsSnoc(q[4..], g);
    }
  }

  /** Fewer than four symbols after whole groups add nothing. */
  lemma {:induction false} QuartetsPartial(q: seq<Sextet>, x: seq<Sextet>)
    requires |q| % 4 == 0 && |x| < 4
    ensures Quartets(q + x) == Quartets(q)
    decreases |q|
  {
    if |q| != 0 {
      assert (q + x)[..4] == q[..4] && (q + x)[4..] == q[4..] + x;
      QuartetsPartial(q[4..], x);
    }
  }

  /** At most three bytes per four symbols. */
  lemma {:induction false} QuartetsBound(q: seq<Sextet>)
    ensures |Quartets(q)| <= 3 * (|q| / 4)
    decreases |q|
  {
    if |q| >= 4 {
      QuartetsBound(q[4..]);
    }
  }

  /**
   * `decode(s)`: the characters fill a buffer of four symbols, skipping
   * everything outside the alphabet and `=`; a full buffer is turned into
   * bytes and emptied. The result is cut down to the bytes produced, which
   * are never more than three quarters of the input length.
   */
  method Decode(s: seq<char>) returns (r: seq<byte>)
    ensures r == Decoded(s)
    ensures |r| <= |s| * 3 / 4
  {
    var data := new byte[|s| * 3 / 4];
    var dc: nat := 0;
    var buffer := new Sextet[4];
    var bc := 0;
    ghost var whole: seq<Sextet> := [];
    Room(|s|);
    for i := 0 to |s|
      invariant 0 <= bc < 4 && |whole| % 4 == 0 && |whole| + bc <= i
      invariant Symbols(s[..i]) == whole + buffer[..bc]
      invariant 4 * dc <= 3 * |whole| && dc <= data.Length && data[..dc] == Quartets(whole)
    {
      Collect(s, i);
      ghost var pending := buffer[..bc];
      bc, dc, whole := Feed(buffer, bc, data, dc, s[i], whole, |s| - i);
      assert Symbols(s[..i + 1]) == whole + buffer[..bc];
    }
    assert s[..|s|] == s;
    QuartetsPartial(whole, buffer[..bc]);
    r := data[..dc];
  }

  /**
   * One character of the decoder's loop: its symbol, if any, goes into the
   * buffer, and a full buffer is turned into bytes and emptied. `left`
   * counts the characters from this one to the end of the input.
   */
  method Feed(buffer: array<Sextet>, bc: nat, data: array<byte>, dc: nat, c: char, ghost whole: seq<Sextet>, ghost left: nat)
      returns (bc': nat, dc': nat, ghost whole': seq<Sextet>)
    requires buffer.Length == 4 && bc < 4 && 1 <= left
    requires |whole| % 4 == 0 && 4 * dc <= 3 * |whole| && dc <= data.Length && data[..dc] == Quartets(whole)
    requires 3 * (|whole| + bc + left) <= 4 * data.Length + 3
    modifies buffer, data
    ensures bc' < 4 && |whole'| % 4 == 0 && |whole'| + bc' <= |whole| + bc + 1
    ensures whole' + buffer[..bc'] == whole + old(buffer[..bc]) + Symbol(c)
    ensures 4 * dc' <= 3 * |whole'| && dc' <= data.Length && data[..dc'] == Quartets(whole')
  {
    bc' := bc;
    dc' := dc;
    whole' := whole;
    if c == '=' {
      buffer[bc'] := -1;
      bc' := bc' + 1;
    } else {
      var v := IndexOf(c);
      if v >= 0 {
        buffer[bc'] := v;
        bc' := bc' + 1;
      }
    }
    if bc' == 4 {
      NextQuartet(|whole|);
      QuartetsSnoc(whole, buffer[..]);
      dc' := Unpack(buffer, data, dc);
      whole' := whole + buffer[..];
      bc' := 0;
    }
  }

  /** The symbols of one more character of `s`. */
  lemma Collect(s: seq<char>, i: nat)
    requires i < |s|
    ensures Symbols(s[..i + 1]) == Symbols(s[..i]) + Symbol(s[i])
  {
    assert s[..i + 1] == s[..i] + [s[i]];
    SymbolsSnoc(s[..i], s[i]);
  }

  /** Turns a full buffer of four symbols into its bytes at position `dc` of `data`. */
  method Unpack(buffer: array<Sextet>, data: array<byte>, dc: nat) returns (dc': nat)
    requires buffer.Length == 4 && dc + 3 <= data.Length
    modifies data
    ensures dc' <= dc + 3 && data[..dc'] == old(data[..dc]) + Quartet(buffer[..])
  {
    var v0, v1, v2, v3: int := buffer[0], buffer[1], buffer[2], buffer[3];
    dc' := dc;
    if v0 != -1 && v1 != -1 {
      data[dc'] := v0 * 4 + v1 / 16;
      dc' := dc' + 1;
      if v2 != -1 {
        data[dc'] := v1 % 16 * 16 + v2 / 4;
        dc' := dc' + 1;
        if v3 != -1 {
          data[dc'] := v2 % 4 * 64 + v3;
          dc' := dc' + 1;
        }
      }
    }
  }

  /** The output buffer holds three bytes for every four characters of the input, less at most one byte. */
  lemma Room(len: nat)
    ensures 3 * len <= 4 * (len * 3 / 4) + 3
  {
  }

  // Properties.

  /** A character outside the alphabet other than `=` (a newline, say) changes nothing in what decodes. */
  lemma SkipsOthers(a: seq<char>, c: char, b: seq<char>)
    requires c != '=' && c !in ALPHABET
    ensures Decoded(a + [c] + b) == Decoded(a + b)
  {
    forall v | 0 <= v < 64
      ensures Digit(v) != c
    {
      assert ALPHABET[v] == Digit(v);
    }
    assert Symbol(c) == [];
    SymbolsAppend(a + [c], b);
    SymbolsSnoc(a, c);
    SymbolsAppend(a, b);
    assert Symbols(a + [c] + b) == Symbols(a + b);
  }

  /** A line break holds no symbols. */
  lemma BreakSymbols(column: int, lineLength: int)
    ensures Symbols(Break(column, lineLength)) == []
  {
    assert "\n"[..0] == [];
  }

  /** One more character adds its symbol, if any. */
  lemma SymbolsSnoc(s: seq<char>, c: char)
    ensures Symbols(s + [c]) == Symbols(s) + Symbol(c)
  {
    assert (s + [c])[..|s|] == s;
  }

  /** An alphabet character stands for its value. */
  lemma DigitSymbol(v: int)
    requires 0 <= v < 64
    ensures Symbol(Digit(v)) == [v]
  {
    assert Digit(v) != '=';
  }

  /** The symbols of the first `n` characters of a group are its first `n` fields. */
  lemma {:induction false} GroupSymbols(b0: byte, b1: byte, b2: byte, n: nat)
    requires n <= 4
    ensures Symbols(Group(b0, b1, b2)[..n]) == Fields(b0, b1, b2)[..n]
  {
    var g, f := Group(b0, b1, b2), Fields(b0, b1, b2);
    if n == 0 {
      assert g[..0] == [];
    } else {
      assert Symbols(g[..n]) == Symbols(g[..n - 1]) + Symbol(g[n - 1]) by {
        assert g[..n] == g[..n - 1] + [g[n - 1]];
        SymbolsSnoc(g[..n - 1], g[n - 1]);
      }
      GroupSymbols(b0, b1, b2, n - 1);
      DigitSymbol(f[n - 1]);
      assert f[..n] == f[..n - 1] + [f[n - 1]];
    }
  }

  /** The decoder's shifts put the fields of a group back together into its bytes. */
  lemma Rejoin(b0: byte, b1: byte, b2: byte)
    ensures var f := Fields(b0, b1, b2);
      f[0] * 4 + f[1] / 16 == b0 as int && f[1] % 16 * 16 + f[2] / 4 == b1 as int && f[2] % 4 * 64 + f[3] == b2 as int
  {
    assert b0 / 4 * 4 + (b0 % 4 * 16 + b1 / 16) / 16 == b0;
    assert (b0 % 4 * 16 + b1 / 16) % 16 * 16 + (b1 % 16 * 4 + b2 / 64) / 4 == b1;
    assert (b1 % 16 * 4 + b2 / 64) % 4 * 64 + b2 % 64 == b2;
  }

  /** A complete group decodes to its three bytes. */
  lemma GroupDecodes(b0: byte, b1: byte, b2: byte)
    ensures var q := Symbols(Group(b0, b1, b2)); |q| == 4 && Quartet(q) == [b0, b1, b2]
  {
    GroupSymbols(b0, b1, b2, 4);
    assert Group(b0, b1, b2)[..4] == Group(b0, b1, b2);
    Rejoin(b0, b1, b2);
  }

  /** The symbols of a padded tail: the values of its characters, -1 for each `=`. */
  lemma PaddedSymbols(t: seq<byte>)
    requires 1 <= |t| <= 2
    ensures var f := Fields(t[0], if |t| == 2 then t[1] else 0, 0);
      Symbols(Padded(t)) == if |t| == 1 then [f[0], f[1], -1, -1] else [f[0], f[1], f[2], -1]
  {
    var b1: byte := if |t| == 2 then t[1] else 0;
    var n := |t| + 1;
    var f := Fields(t[0], b1, 0);
    assert Padded(t) == Group(t[0], b1, 0)[..n] + Padding(|t|);
    GroupSymbols(t[0], b1, 0, n);
    SymbolsAppend(Group(t[0], b1, 0)[..n], Padding(|t|));
    PaddingSymbols(|t|);
    assert Symbols(Padded(t)) == f[..n] + Symbols(Padding(|t|));
  }

  /** Each `=` is the symbol -1. */
  lemma PaddingSymbols(n: nat)
    ensures Symbols(Padding(n)) == if n == 1 then [-1, -1] else [-1]
  {
    assert "=="[..1] == "=" && "="[..0] == [];
  }

  /** A padded tail decodes to its one or two bytes. */
  lemma {:induction false} PaddedDecodes(t: seq<byte>)
    requires 1 <= |t| <= 2
    ensures var q := Symbols(Padded(t)); |q| == 4 && Quartet(q) == t
  {
    var b0 := t[0];
    var b1 := if |t| == 2 then t[1] else 0;
    PaddedSymbols(t);
    Rejoin(b0, b1, 0);
    if |t| == 1 {
      assert t == [b0];
    } else {
      assert t == [b0, b1];
    }
  }

  /** The wrapped complete groups decode back to their bytes, in whole groups of four symbols. */
  lemma {:induction false} LinesDecode(data: seq<byte>, lineLength: int)
    requires |data| % 3 == 0
    ensures |Symbols(Lines(data, lineLength))| % 4 == 0
    ensures Quartets(Symbols(Lines(data, lineLength))) == data
    decreases |data|
  {
    if |data| != 0 {
      var k := |data| - 3;
      assert data == data[..k] + [data[k], data[k + 1], data[k + 2]];
      var before := Lines(data[..k], lineLength);
      var column := Column(data[..k], lineLength);
      var g := Group(data[k], data[k + 1], data[k + 2]);
      LinesDecode(data[..k], lineLength);
      PlacedSymbols(before, column, lineLength, g);
      GroupDecodes(data[k], data[k + 1], data[k + 2]);
      QuartetsSnoc(Symbols(before), Symbols(g));
      assert Symbols(Lines(data, lineLength)) == Symbols(before) + Symbols(g);
      NextQuartet(|Symbols(before)|);
    }
  }

  /** Four more symbols after whole groups of four leave whole groups. */
  lemma NextQuartet(n: int)
    requires n % 4 == 0
    ensures (n + 4) % 4 == 0
  {
  }

  /** A group placed after a possible line break adds just its own symbols. */
  lemma PlacedSymbols(before: seq<char>, column: int, lineLength: int, g: seq<char>)
    ensures Symbols(before + Break(column, lineLength) + g) == Symbols(before) + Symbols(g)
  {
    SymbolsAppend(before + Break(column, lineLength), g);
    SymbolsAppend(before, Break(column, lineLength));
    BreakSymbols(column, lineLength);
  }

  /** `decode(encode(data, lineLength)) == data`, whatever the line length. */
  lemma RoundTrip(data: seq<byte>, lineLength: int)
    ensures Decoded(Encoded(data, lineLength)) == data
  {
    if |data| % 3 == 0 {
      WholeGroups(data, lineLength);
      LinesDecode(data, lineLength);
    } else {
      TailRoundTrip(data, lineLength);
    }
  }

  /** Data of complete groups only encodes to its wrapped groups. */
  lemma WholeGroups(data: seq<byte>, lineLength: int)
    requires |data| % 3 == 0
    ensures Encoded(data, lineLength) == Lines(data, lineLength)
  {
    assert data[..|data|] == data;
  }

  /** The round trip when the data ends in an incomplete group. */
  lemma TailRoundTrip(data: seq<byte>, lineLength: int)
    requires |data| % 3 != 0
    ensures Decoded(Encoded(data, lineLength)) == data
  {
    var k := |data| - |data| % 3;
    var lines := Lines(data[..k], lineLength);
    var p := Padded(data[k..]);
    var column := Column(data[..k], lineLength);
    assert Decoded(Encoded(data, lineLength)) == Quartets(Symbols(lines) + Symbols(p)) by {
      assert Encoded(data, lineLength) == lines + Break(column, lineLength) + p;
      PlacedSymbols(lines, column, lineLength, p);
    }
    assert Quartets(Symbols(lines) + Symbols(p)) == data[..k] + data[k..] by {
      LinesDecode(data[..k], lineLength);
      PaddedDecodes(data[k..]);
      QuartetsSnoc(Symbols(lines), Symbols(p));
    }
    assert data == data[..k] + data[k..];
  }

  // Layout.

  /** `s` without its newlines. */
  function Unwrapped(s: seq<char>): seq<char> {
    if |s| == 0 then [] else Unwrapped(s[..|s| - 1]) + (if s[|s| - 1] == '\n' then [] else [s[|s| - 1]])
  }

  /** Unwrapping two strings put together unwraps each. */
  lemma {:induction false} UnwrappedAppend(a: seq<char>, b: seq<char>)
    ensures Unwrapped(a + b) == Unwrapped(a) + Unwrapped(b)
    decreases |b|
  {
    if |b| == 0 {
      assert a + b == a;
    } else {
      var b' := b[..|b| - 1];
      assert (a + b)[..|a + b| - 1] == a + b';
      UnwrappedAppend(a, b');
    }
  }

  /** No line of `s` is longer than `lineLength`: every longer stretch holds a newline. */
  predicate Fits(s: seq<char>, lineLength: int) {
    forall i, j :: 0 <= i <= j <= |s| && j - i > lineLength ==> '\n' in s[i..j]
  }

  /** The last line of `s` is at most `column` long: every longer tail holds a newline. */
  predicate EndsWithin(s: seq<char>, column: int) {
    forall i :: 0 <= i <= |s| && |s| - i > column ==> '\n' in s[i..]
  }

  /** Placing four characters after a possible break keeps every line within a length of at least 4. */
  lemma {:induction false} PlaceFits(s: seq<char>, column: int, lineLength: int, g: seq<char>)
    requires 4 <= lineLength && 0 <= column <= lineLength
    requires Fits(s, lineLength) && EndsWithin(s, column)
    requires |g| == 4
    ensures var t := s + Break(column, lineLength) + g;
      Fits(t, lineLength) && EndsWithin(t, NextColumn(column, lineLength)) &&
      0 <= NextColumn(column, lineLength) <= lineLength
  {
    var br := Break(column, lineLength);
    var t := s + br + g;
    forall i | 0 <= i <= |t| && |t| - i > NextColumn(column, lineLength)
      ensures '\n' in t[i..]
    {
      if br != [] {
        assert t[i..][|s| - i] == '\n';
      } else {
        var p :| 0 <= p < |s[i..]| && s[i..][p] == '\n';
        assert t[i..][p] == '\n';
      }
    }
    forall i, j | 0 <= i <= j <= |t| && j - i > lineLength
      ensures '\n' in t[i..j]
    {
      if j <= |s| {
        assert t[i..j] == s[i..j];
      } else if br != [] {
        assert t[i..j][|s| - i] == '\n';
      } else {
        var p :| 0 <= p < |s[i..]| && s[i..][p] == '\n';
        assert t[i..j][p] == '\n';
      }
    }
  }

  /** The complete groups, wrapped at a length of at least 4, keep every line within it and end at `Column`. */
  lemma {:induction false} LinesFit(data: seq<byte>, lineLength: int)
    requires 4 <= lineLength && |data| % 3 == 0
    ensures var s := Lines(data, lineLength);
      Fits(s, lineLength) && EndsWithin(s, Column(data, lineLength)) && 0 <= Column(data, lineLength) <= lineLength
    decreases |data|
  {
    if |data| != 0 {
      var k := |data| - 3;
      var before, column := Lines(data[..k], lineLength), Column(data[..k], lineLength);
      var g := Group(data[k], data[k + 1], data[k + 2]);
      assert Lines(data, lineLength) == before + Break(column, lineLength) + g;
      assert Column(data, lineLength) == NextColumn(column, lineLength);
      LinesFit(data[..k], lineLength);
      PlaceFits(before, column, lineLength, g);
    }
  }

  /** With a line length of at least 4 (the default is 76), no line of the encoding is longer. */
  lemma EncodedFits(data: seq<byte>, lineLength: int)
    requires 4 <= lineLength
    ensures Fits(Encoded(data, lineLength), lineLength)
  {
    var k := |data| - |data| % 3;
    LinesFit(data[..k], lineLength);
    if k == |data| {
      assert Encoded(data, lineLength) == Lines(data[..k], lineLength);
    } else {
      var column := Column(data[..k], lineLength);
      assert Encoded(data, lineLength) == Lines(data[..k], lineLength) + Break(column, lineLength) + Padded(data[k..]);
      PlaceFits(Lines(data[..k], lineLength), column, lineLength, Padded(data[k..]));
    }
  }

  /** Without its newlines, the encoding is four characters per started group of three bytes. */
  lemma EncodedLength(data: seq<byte>, lineLength: int)
    ensures |Unwrapped(Encoded(data, lineLength))| == 4 * ((|data| + 2) / 3)
  {
    GroupCount(|data|);
    if |data| % 3 == 0 {
      WholeGroups(data, lineLength);
      LinesLength(data, lineLength);
    } else {
      TailLength(data, lineLength);
    }
  }

  /** Newlines aside, data ending in an incomplete group encodes to four characters per group, its tail included. */
  lemma TailLength(data: seq<byte>, lineLength: int)
    requires |data| % 3 != 0
    ensures |Unwrapped(Encoded(data, lineLength))| == (|data| - |data| % 3) / 3 * 4 + 4
  {
    var k := |data| - |data| % 3;
    var lines := Lines(data[..k], lineLength);
    var column := Column(data[..k], lineLength);
    var p := Padded(data[k..]);
    assert Encoded(data, lineLength) == lines + Break(column, lineLength) + p;
    LinesLength(data[..k], lineLength);
    PaddedPrintable(data[k..]);
    PlacedUnwrapped(lines, column, lineLength, p);
  }

  /** Groups started by `n` bytes: the complete ones, and one more for a remainder. */
  lemma GroupCount(n: nat)
    ensures n % 3 == 0 ==> 4 * ((n + 2) / 3) == n / 3 * 4
    ensures n % 3 != 0 ==> 4 * ((n + 2) / 3) == (n - n % 3) / 3 * 4 + 4
  {
  }

  /** No character of a complete group is a newline. */
  lemma GroupPrintable(b0: byte, b1: byte, b2: byte)
    ensures '\n' !in Group(b0, b1, b2)
  {
  }

  /** No character of a padded tail is a newline. */
  lemma PaddedPrintable(t: seq<byte>)
    requires 1 <= |t| <= 2
    ensures '\n' !in Padded(t)
  {
    GroupPrintable(t[0], if |t| == 2 then t[1] else 0, 0);
  }

  /** Characters placed after a possible line break, none of them a newline, are all kept by unwrapping. */
  lemma PlacedUnwrapped(before: seq<char>, column: int, lineLength: int, g: seq<char>)
    requires '\n' !in g
    ensures Unwrapped(before + Break(column, lineLength) + g) == Unwrapped(before) + g
  {
    UnwrappedAppend(before + Break(column, lineLength), g);
    UnwrappedAppend(before, Break(column, lineLength));
    BreakUnwrapped(column, lineLength);
    NoNewline(g);
  }

  /** Unwrapping removes a line break. */
  lemma BreakUnwrapped(column: int, lineLength: int)
    ensures Unwrapped(Break(column, lineLength)) == []
  {
    assert "\n"[..0] == [];
  }

  /** Four characters per complete group, newlines aside. */
  lemma {:induction false} LinesLength(data: seq<byte>, lineLength: int)
    requires |data| % 3 == 0
    ensures |Unwrapped(Lines(data, lineLength))| == |data| / 3 * 4
    decreases |data|
  {
    if |data| != 0 {
      var k := |data| - 3;
      var g := Group(data[k], data[k + 1], data[k + 2]);
      LinesLength(data[..k], lineLength);
      GroupPrintable(data[k], data[k + 1], data[k + 2]);
      PlacedUnwrapped(Lines(data[..k], lineLength), Column(data[..k], lineLength), lineLength, g);
    }
  }

  /** Unwrapping a string without newlines keeps it as it is. */
  lemma {:induction false} NoNewline(s: seq<char>)
    requires '\n' !in s
    ensures Unwrapped(s) == s
    decreases |s|
  {
    if |s| != 0 {
      NoNewline(s[..|s| - 1]);
      assert s == s[..|s| - 1] + [s[|s| - 1]];
    }
  }
}
