/** The hex-text icon format of the kiln display and its decoder
    (`KilnDisplay.load_icon_from_hex` in display.py).

    An icon file is text. The first line, in file order, that contains
    `<digits>x<digits>px` (letters in any case) gives the width and height;
    without one the icon is 16 by 16. Lines whose first non-blank characters
    are `//` are comments. Every `0x<hex digits>` in the other lines is one
    byte of pixel data; the byte list is padded with zeros or cut to
    `(width * height) / 8` bytes, and the bytes are unpacked most significant
    bit first into a row-major pixel grid in which a set bit is a lit pixel.

    The specification is the chain of functions `Dimensions`, `DataTokens`,
    `Reconcile` and `Unpack`, put together by `DecodeText`; the method
    `LoadIconFromHex` is the decoder's own step-by-step algorithm over a
    mutable pixel buffer, proved to compute `Decode`. `EncodeText` writes an
    icon in the same format, and `DecodeEncode` proves the round trip. */
module HexIcon {
  import opened Wrappers
  import opened Text

  /** A monochrome image: pixel (x, y) is `bits[y * width + x]`, true when lit. */
  datatype Bitmap = Bitmap(width: nat, height: nat, bits: seq<bool>) {
    predicate Valid() { |bits| == width * height }
  }

  /** The size used when no line declares one (display.py:214). */
  const DefaultWidth: nat := 16
  const DefaultHeight: nat := 16

  // ---------------------------------------------------------------------------
  // Dimensions: re.search(r'(\d+)x(\d+)px', line, re.IGNORECASE), line by line

  /** Length of the longest prefix of `s` made of digits of `base`: what a greedy
      `\d+` (base 10) or `[0-9a-fA-F]+` (base 16) consumes. */
  function Span(s: string, base: nat): (n: nat)
    ensures n <= |s| && DigitsIn(s[..n], base)
    ensures n < |s| ==> !InBase(s[n], base)
    decreases |s|
  {
    if s == [] || !InBase(s[0], base) then 0
    else
      var n := 1 + Span(s[1..], base);
      assert forall i :: 1 <= i < n ==> s[..n][i] == s[1..][..n - 1][i - 1];
      n
  }

  predicate IsX(c: char) { c == 'x' || c == 'X' }
  predicate IsP(c: char) { c == 'p' || c == 'P' }

  /** The match of `(\d+)x(\d+)px`, ignoring case, that starts at `s[0]`, with
      both groups read as decimal numbers. A digit is neither `x` nor `p`, so
      each greedy `\d+` can only end where the run of digits ends: no other
      way of matching at this position exists. */
  function DimensionAt(s: string): Option<(nat, nat)> {
    var a := Span(s, 10);
    if a == 0 || a >= |s| || !IsX(s[a]) then None
    else
      match HeightPart(s[a + 1..])
      case None => None
      case Some(height) => Some((Value(s[..a], 10), height))
  }

  /** The `(\d+)px` that follows the `x` of a match, read as a decimal number. */
  function HeightPart(t: string): Option<nat> {
    var b := Span(t, 10);
    if b == 0 || b + 2 > |t| || !IsP(t[b]) || !IsX(t[b + 1]) then None
    else Some(Value(t[..b], 10))
  }

  /** `re.search`: the leftmost position of `line` at which the pattern matches. */
  function SearchDimension(line: string): Option<(nat, nat)>
    decreases |line|
  {
    if line == [] then None
    else if DimensionAt(line).Some? then DimensionAt(line)
    else SearchDimension(line[1..])
  }

  /** The width and height declared by the first line that has a match, comment
      lines included (display.py:214-221). */
  function Dimensions(lines: seq<string>): (nat, nat)
    decreases |lines|
  {
    if lines == [] then (DefaultWidth, DefaultHeight)
    else match SearchDimension(lines[0])
      case Some(d) => d
      case None => Dimensions(lines[1..])
  }

  /** The declared size is the match of the first line, in file order, that
      has one, comment lines included. */
  lemma {:induction false} DimensionsFirstMatch(lines: seq<string>, i: nat)
    requires i < |lines| && SearchDimension(lines[i]).Some?
    requires forall j :: 0 <= j < i ==> SearchDimension(lines[j]).None?
    ensures Dimensions(lines) == SearchDimension(lines[i]).value
    decreases i
  {
    if i > 0 {
      assert forall j :: 0 <= j < i - 1 ==> lines[1..][j] == lines[j + 1];
      DimensionsFirstMatch(lines[1..], i - 1);
    }
  }

  /** When no line declares a size, the icon is 16 by 16. */
  lemma {:induction false} DimensionsDefault(lines: seq<string>)
    requires forall j :: 0 <= j < |lines| ==> SearchDimension(lines[j]).None?
    ensures Dimensions(lines) == (DefaultWidth, DefaultHeight)
    decreases |lines|
  {
    if lines != [] {
      assert forall j :: 0 <= j < |lines| - 1 ==> lines[1..][j] == lines[j + 1];
      DimensionsDefault(lines[1..]);
    }
  }

  // ---------------------------------------------------------------------------
  // Pixel data: comment lines dropped, then re.findall(r'0x([0-9a-fA-F]+)', ...)

  /** `line.strip().startswith('//')`. Trailing white space cannot change what a
      stripped line starts with, so only the leading side is trimmed. */
  predicate IsComment(line: string) {
    StartsWith(TrimStart(line), "//")
  }

  /** The lines that are not comments, in order (display.py:224). */
  function DataLines(lines: seq<string>): (kept: seq<string>)
    ensures |kept| <= |lines|
    decreases |lines|
  {
    if lines == [] then []
    else (if IsComment(lines[0]) then [] else [lines[0]]) + DataLines(lines[1..])
  }

  /** Exactly the lines that are not comments are kept. */
  lemma {:induction false} DataLinesKept(lines: seq<string>)
    ensures forall l :: l in DataLines(lines) <==> l in lines && !IsComment(l)
    decreases |lines|
  {
    if lines != [] {
      DataLinesKept(lines[1..]);
      assert lines == [lines[0]] + lines[1..];
    }
  }

  /** The leftmost-first, non-overlapping matches of `0x([0-9a-fA-F]+)` in `s`,
      in order, each group read with `int(_, 16)` (display.py:226-228). The
      `0x` prefix is case-sensitive; a token may have any number of digits. */
  function HexTokens(s: string): (tokens: seq<nat>)
    ensures 3 * |tokens| <= |s|
    decreases |s|
  {
    if |s| >= 3 && s[0] == '0' && s[1] == 'x' && InBase(s[2], 16) then
      var t := s[2..];
      var n := Span(t, 16);
      [Value(t[..n], 16)] + HexTokens(t[n..])
    else if s == [] then []
    else HexTokens(s[1..])
  }

  /** The tokens of the non-comment lines joined back with line breaks. */
  function DataTokens(lines: seq<string>): seq<nat> {
    HexTokens(Join(DataLines(lines), '\n'))
  }

  lemma {:induction false} DataLinesAppend(a: seq<string>, b: seq<string>)
    ensures DataLines(a + b) == DataLines(a) + DataLines(b)
    decreases |a|
  {
    if a != [] {
      DataLinesAppend(a[1..], b);
      assert (a + b)[1..] == a[1..] + b;
    } else {
      assert a + b == b;
    }
  }

  /** A comment line contributes no token, whatever hex-looking text it holds:
      inserting or removing it leaves the data tokens unchanged. */
  lemma CommentLineIgnored(before: seq<string>, comment: string, after: seq<string>)
    requires IsComment(comment)
    ensures DataTokens(before + [comment] + after) == DataTokens(before + after)
  {
    DataLinesAppend(before + [comment], after);
    DataLinesAppend(before, [comment]);
    DataLinesAppend(before, after);
    assert [comment][1..] == [];
    assert DataLines([comment]) == [];
    assert DataLines(before + [comment] + after) == DataLines(before + after);
  }

  // ---------------------------------------------------------------------------
  // Size reconciliation and bit unpacking

  /** The token list padded with zeros or cut to `expected` bytes
      (display.py:231-238). */
  function Reconcile(data: seq<nat>, expected: nat): (bytes: seq<nat>)
    ensures |bytes| == expected
    ensures forall i :: 0 <= i < expected ==> bytes[i] == (if i < |data| then data[i] else 0)
  {
    if |data| < expected then data + seq(expected - |data|, _ => 0) else data[..expected]
  }

  /** Tokens beyond the ones needed never affect the byte list. */
  lemma {:induction false} ExtraTokensIgnored(data: seq<nat>, extra: seq<nat>, expected: nat)
    requires expected <= |data|
    ensures Reconcile(data + extra, expected) == Reconcile(data, expected) == data[..expected]
  {
    assert (data + extra)[..expected] == data[..expected];
  }

  /** Bit `k` of `v`, bit 0 the least significant: whether `v & (1 << k)` is non-zero. */
  function TestBit(v: nat, k: nat): bool
    decreases k
  {
    if k == 0 then v % 2 == 1 else TestBit(v / 2, k - 1)
  }

  function Pow2(k: nat): (p: nat)
    ensures p >= 1
  {
    if k == 0 then 1 else 2 * Pow2(k - 1)
  }

  /** Adding a multiple of 2^m changes no bit below bit m. */
  lemma {:induction false} TestBitLow(v: nat, c: nat, m: nat, k: nat)
    requires k < m
    ensures TestBit(v + c * Pow2(m), k) == TestBit(v, k)
    decreases k
  {
    var half := c * Pow2(m - 1);
    assert c * Pow2(m) == 2 * half;
    if k > 0 {
      assert (v + 2 * half) / 2 == v / 2 + half;
      TestBitLow(v / 2, c, m - 1, k - 1);
    }
  }

  lemma {:induction false} TestBitZero(k: nat)
    ensures !TestBit(0, k)
  {
    if k > 0 { TestBitZero(k - 1); }
  }

  /** The first `n` pixels of the MSB-first bit stream of `data`; pixels past
      the end of the data stay unlit (display.py:240-251). */
  function Unpack(data: seq<nat>, n: nat): (bits: seq<bool>)
    ensures |bits| == n
  {
    seq(n, i requires 0 <= i < n => i / 8 < |data| && TestBit(data[i / 8], 7 - i % 8))
  }

  /** Helper: pixel i of the unpacked stream, for proofs that index it. */
  lemma UnpackAt(data: seq<nat>, n: nat, i: nat)
    requires i < n
    ensures Unpack(data, n)[i] == (i / 8 < |data| && TestBit(data[i / 8], 7 - i % 8))
  {
  }

  /** Only the low 8 bits of a token are ever read: bits above bit 7 are ignored. */
  lemma TokenHighBitsIgnored(data: seq<nat>, n: nat)
    ensures Unpack(data, n) == Unpack(seq(|data|, i requires 0 <= i < |data| => data[i] % 256), n)
  {
    var low := seq(|data|, i requires 0 <= i < |data| => data[i] % 256);
    forall i | 0 <= i < n && i / 8 < |data|
      ensures TestBit(data[i / 8], 7 - i % 8) == TestBit(low[i / 8], 7 - i % 8)
    {
      var v := data[i / 8];
      assert Pow2(8) == 256;
      assert v == v % 256 + (v / 256) * 256;
      TestBitLow(v % 256, v / 256, 8, 7 - i % 8);
    }
  }

  // ---------------------------------------------------------------------------
  // The decoder

  /** The icon that a file's text describes. */
  function DecodeText(text: string): (icon: Bitmap)
    ensures icon.Valid()
  {
    var lines := Split(text, '\n');
    var (w, h) := Dimensions(lines);
    Bitmap(w, h, Unpack(Reconcile(DataTokens(lines), (w * h) / 8), w * h))
  }

  /** A missing file gives no icon; present text always decodes (display.py:205-207). */
  function Decode(source: Option<string>): (icon: Option<Bitmap>)
    ensures icon.Some? <==> source.Some?
    ensures icon.Some? ==> icon.value.Valid()
  {
    match source
    case None => None
    case Some(text) => Some(DecodeText(text))
  }

  /** What each decoded pixel is, stated on the raw tokens: pixel `i` is lit
      exactly when it lies in the first `8 * ((w * h) / 8)` pixels, there is a
      token for its byte, and bit `7 - i % 8` of that token is set. So missing
      tokens leave their pixels unlit, and tokens past the needed count are
      never read. */
  lemma DecodedPixel(text: string, i: nat)
    requires i < |DecodeText(text).bits|
    ensures var (w, h) := Dimensions(Split(text, '\n'));
            var tokens := DataTokens(Split(text, '\n'));
            DecodeText(text).width == w && DecodeText(text).height == h &&
            DecodeText(text).bits[i] ==
              (i / 8 < (w * h) / 8 && i / 8 < |tokens| && TestBit(tokens[i / 8], 7 - i % 8))
  {
    var lines := Split(text, '\n');
    var (w, h) := Dimensions(lines);
    var tokens := DataTokens(lines);
    var e := (w * h) / 8;
    var data := Reconcile(tokens, e);
    assert DecodeText(text) == Bitmap(w, h, Unpack(data, w * h));
    assert DecodeText(text).bits[i] == (i / 8 < |data| && TestBit(data[i / 8], 7 - i % 8));
    if i / 8 < e {
      assert data[i / 8] == (if i / 8 < |tokens| then tokens[i / 8] else 0);
      if |tokens| <= i / 8 {
        TestBitZero(7 - i % 8);
      }
    }
  }

  /** `load_icon_from_hex` on the text of the icon file, or on `None` when the
      file does not exist (display.py:191-257). */
  method LoadIconFromHex(source: Option<string>) returns (icon: Option<Bitmap>)
    ensures icon == Decode(source)
  {
    if source.None? {
      return None;
    }
    var lines := Split(source.value, '\n');
    var width, height := ScanDimensions(lines);

    // pad or truncate to whole bytes of the pixel grid
    var hexData := DataTokens(lines);
    var expected := (width * height) / 8;
    if |hexData| != expected {
      if |hexData| < expected {
        hexData := hexData + seq(expected - |hexData|, _ => 0);
      } else {
        hexData := hexData[..expected];
      }
    }
    assert hexData == Reconcile(DataTokens(lines), expected);

    var pixels := DrawPixels(hexData, width, height);
    icon := Some(Bitmap(width, height, pixels));
  }

  /** The loop over the lines that stops at the first size declaration
      (display.py:214-221). */
  method ScanDimensions(lines: seq<string>) returns (width: nat, height: nat)
    ensures (width, height) == Dimensions(lines)
  {
    width, height := DefaultWidth, DefaultHeight;
    var i := 0;
    while i < |lines|
      invariant 0 <= i <= |lines|
      invariant Dimensions(lines[i..]) == Dimensions(lines)
    {
      var m := SearchDimension(lines[i]);
      if m.Some? {
        width, height := m.value.0, m.value.1;
        break;
      }
      assert lines[i..][1..] == lines[i + 1..];
      i := i + 1;
    }
  }

  /** The nested loop that unpacks bytes MSB first into a pixel buffer created
      unlit, setting pixel (x, y) as `putpixel` does (display.py:241-251). */
  method DrawPixels(hexData: seq<nat>, width: nat, height: nat) returns (bits: seq<bool>)
    ensures bits == Unpack(hexData, width * height)
  {
    var n := width * height;
    var pixels := new bool[n](_ => false);
    var pixelIndex := 0;
    var j := 0;
    while j < |hexData|
      invariant 0 <= j <= |hexData|
      invariant pixelIndex == Min(8 * j, n)
      invariant forall k :: 0 <= k < n ==> pixels[k] == (k < pixelIndex && Unpack(hexData, n)[k])
    {
      var byteVal := hexData[j];
      var bit := 7;
      while bit >= 0
        invariant -1 <= bit <= 7
        invariant pixelIndex == Min(8 * j + 7 - bit, n)
        invariant forall k :: 0 <= k < n ==> pixels[k] == (k < pixelIndex && Unpack(hexData, n)[k])
      {
        if pixelIndex >= n {
          break;
        }
        var x := pixelIndex % width;
        var y := pixelIndex / width;
        RowMajor(pixelIndex, width, height);
        ByteAndBit(pixelIndex, j, bit);
        if TestBit(byteVal, bit) {
          pixels[y * width + x] := true;
        }
        pixelIndex := pixelIndex + 1;
        bit := bit - 1;
      }
      j := j + 1;
    }
    bits := pixels[..];
    assert forall k :: 0 <= k < n ==> bits[k] == Unpack(hexData, n)[k];
  }

  /** Pixel `k` of a `width` by `height` grid is (k % width, k / width), stored at
      row-major position `y * width + x`. */
  lemma RowMajor(k: nat, width: nat, height: nat)
    requires k < width * height
    ensures width > 0 && k % width < width && k / width < height
    ensures (k / width) * width + k % width == k
  {
  }

  /** Pixel `8 * j + 7 - bit` is bit `bit` of byte `j`. */
  lemma ByteAndBit(k: nat, j: nat, bit: int)
    requires 0 <= bit <= 7 && k == 8 * j + 7 - bit
    ensures k / 8 == j && k % 8 == 7 - bit
  {
  }

  // ---------------------------------------------------------------------------
  // Writing icons in the same format

  /** The byte whose bits, most significant first, are `b`. */
  function PackByte(b: seq<bool>): nat
    decreases |b|
  {
    if b == [] then 0 else 2 * PackByte(b[..|b| - 1]) + (if b[|b| - 1] then 1 else 0)
  }

  /** Packing and testing bits agree: the `j`-th bit of the group is bit
      `|b| - 1 - j` of the packed value, and the value fits in `|b|` bits. */
  lemma {:induction false} PackByteBits(b: seq<bool>, j: nat)
    requires j < |b|
    ensures PackByte(b) < Pow2(|b|)
    ensures TestBit(PackByte(b), |b| - 1 - j) == b[j]
    decreases |b|
  {
    var init := b[..|b| - 1];
    var p := PackByte(init);
    if |b| > 1 {
      PackByteBits(init, if j < |b| - 1 then j else 0);
    }
    if j < |b| - 1 {
      assert PackByte(b) / 2 == p;
    }
  }

  /** Consecutive groups of eight pixels, each packed MSB first. */
  function Pack(bits: seq<bool>): (data: seq<nat>)
    requires |bits| % 8 == 0
    ensures |data| == |bits| / 8
    decreases |bits|
  {
    if bits == [] then [] else [PackByte(bits[..8])] + Pack(bits[8..])
  }

  lemma {:induction false} PackAt(bits: seq<bool>, q: nat)
    requires |bits| % 8 == 0 && q < |bits| / 8
    ensures Pack(bits)[q] == PackByte(bits[8 * q .. 8 * q + 8])
    ensures Pack(bits)[q] < 256
    decreases q
  {
    if q > 0 {
      PackAt(bits[8..], q - 1);
      assert bits[8..][8 * (q - 1) .. 8 * (q - 1) + 8] == bits[8 * q .. 8 * q + 8];
    } else {
      PackByteBits(bits[..8], 0);
      assert Pow2(8) == 256;
    }
  }

  /** Unpacking packed pixels gives them back. */
  lemma UnpackPack(bits: seq<bool>)
    requires |bits| % 8 == 0
    ensures Unpack(Pack(bits), |bits|) == bits
  {
    var data := Pack(bits);
    var u := Unpack(data, |bits|);
    forall i | 0 <= i < |u|
      ensures u[i] == bits[i]
    {
      PackedBit(bits, i);
      UnpackAt(data, |bits|, i);
    }
  }

  lemma PackedBit(bits: seq<bool>, i: nat)
    requires |bits| % 8 == 0 && i < |bits|
    ensures i / 8 < |Pack(bits)| && TestBit(Pack(bits)[i / 8], 7 - i % 8) == bits[i]
  {
    var q, r := i / 8, i % 8;
    assert i == 8 * q + r && r < 8;
    GroupBit(bits, q, r);
  }

  /** Bit `7 - r` of the `q`-th packed byte is pixel `8 * q + r`. */
  lemma GroupBit(bits: seq<bool>, q: nat, r: nat)
    requires |bits| % 8 == 0 && 8 * q + r < |bits| && r < 8
    ensures q < |Pack(bits)| && TestBit(Pack(bits)[q], 7 - r) == bits[8 * q + r]
  {
    assert 8 * q + 8 <= |bits|;
    var group := bits[8 * q .. 8 * q + 8];
    PackAt(bits, q);
    ByteBit(group, r);
  }

  lemma ByteBit(group: seq<bool>, r: nat)
    requires |group| == 8 && r < 8
    ensures TestBit(PackByte(group), 7 - r) == group[r]
  {
    PackByteBits(group, r);
  }

  /** Each byte as a `0x` token with two upper-case hex digits and a comma. */
  function HexList(data: seq<nat>): (s: string)
    ensures '\n' !in s
    ensures s == [] || s[0] == '0'
  {
    if data == [] then [] else "0x" + ZeroPadded(data[0], 2, 16) + "," + HexList(data[1..])
  }

  lemma {:induction false} HexTokensOfList(data: seq<nat>)
    ensures HexTokens(HexList(data)) == data
    decreases |data|
  {
    if data != [] {
      var digits := ZeroPadded(data[0], 2, 16);
      var rest := HexList(data[1..]);
      HexTokensOfList(data[1..]);
      assert "0x" + digits + "," + rest == "0x" + digits + [','] + rest;
      TokenEnds(digits, ',', rest);
    }
  }

  /** A token ends at the first character that is not a hex digit: it is read
      as one value, and reading resumes after that character. */
  lemma TokenEnds(digits: string, c: char, rest: string)
    requires |digits| >= 1 && DigitsIn(digits, 16) && !InBase(c, 16)
    ensures HexTokens("0x" + digits + [c] + rest) == [Value(digits, 16)] + HexTokens(rest)
  {
    var s := "0x" + digits + [c] + rest;
    var t := s[2..];
    assert t == digits + ([c] + rest);
    assert s[0] == '0' && s[1] == 'x' && s[2] == digits[0];
    SpanOf(digits, [c] + rest, 16);
    assert t[..|digits|] == digits;
    assert t[|digits|..] == [c] + rest;
    assert ([c] + rest)[1..] == rest;
  }

  /** A run of digits stops at the first character that is not one. */
  lemma SpanOf(digits: string, rest: string, base: nat)
    requires DigitsIn(digits, base)
    requires rest == [] || !InBase(rest[0], base)
    ensures Span(digits + rest, base) == |digits|
    decreases |digits|
  {
    var s := digits + rest;
    if digits != [] {
      var more := digits[1..];
      assert s[0] == digits[0] && InBase(digits[0], base);
      assert s[1..] == more + rest;
      assert forall i | 0 <= i < |more| :: more[i] == digits[i + 1];
      SpanOf(more, rest, base);
    } else {
      assert s == rest;
    }
  }

  /** The comment line that declares an icon's size. */
  function SizeLine(width: nat, height: nat): string {
    "// " + Render(width, 10) + "x" + Render(height, 10) + "px"
  }

  /** An icon in the hex-text format: a size comment, then one line of tokens. */
  function EncodeText(icon: Bitmap): string
    requires icon.Valid() && |icon.bits| % 8 == 0
  {
    SizeLine(icon.width, icon.height) + "\n" + HexList(Pack(icon.bits))
  }

  lemma SizeLineDeclares(width: nat, height: nat)
    ensures SearchDimension(SizeLine(width, height)) == Some((width, height))
    ensures IsComment(SizeLine(width, height))
    ensures '\n' !in SizeLine(width, height)
  {
    var w, h := Render(width, 10), Render(height, 10);
    SizeLineSearch(w, h);
    SizeLineIsComment(w, h);
  }

  lemma SizeLineIsComment(w: string, h: string)
    requires DigitsIn(w, 10) && DigitsIn(h, 10)
    ensures IsComment("// " + w + "x" + h + "px")
    ensures '\n' !in "// " + w + "x" + h + "px"
  {
    var line := "// " + w + "x" + h + "px";
    assert line[0] == '/' && line[..2] == "//";
    assert TrimStart(line) == line;
    assert '\n' !in w && '\n' !in h;
  }

  lemma SizeLineSearch(w: string, h: string)
    requires |w| >= 1 && DigitsIn(w, 10) && |h| >= 1 && DigitsIn(h, 10)
    ensures SearchDimension("// " + w + "x" + h + "px") == Some((Value(w, 10), Value(h, 10)))
  {
    var body := w + "x" + h + "px";
    assert "// " + w + "x" + h + "px" == ['/'] + (['/'] + ([' '] + body));
    NonDigitSkipped('/', ['/'] + ([' '] + body));
    NonDigitSkipped('/', [' '] + body);
    NonDigitSkipped(' ', body);
    assert body == w + ['x'] + h + ['p', 'x'] + [];
    DeclarationAt(w, 'x', h, 'p', 'x', []);
  }

  /** A search for the size pattern moves past a character that is not a digit. */
  lemma NonDigitSkipped(c: char, s: string)
    requires !InBase(c, 10)
    ensures SearchDimension([c] + s) == SearchDimension(s)
  {
    assert Span([c] + s, 10) == 0;
    assert ([c] + s)[1..] == s;
  }

  /** `<w>x<h>px` at the start of a string, with either case for each letter and
      anything after it, is read as the size (w, h); a search over the string
      finds it there. */
  lemma DeclarationAt(w: string, cx: char, h: string, cp: char, cx2: char, post: string)
    requires |w| >= 1 && DigitsIn(w, 10) && |h| >= 1 && DigitsIn(h, 10)
    requires IsX(cx) && IsP(cp) && IsX(cx2)
    ensures DimensionAt(w + [cx] + h + [cp, cx2] + post) == Some((Value(w, 10), Value(h, 10)))
    ensures SearchDimension(w + [cx] + h + [cp, cx2] + post) == Some((Value(w, 10), Value(h, 10)))
  {
    var tail := h + ([cp, cx2] + post);
    assert w + [cx] + h + [cp, cx2] + post == w + ([cx] + tail);
    HeightTail(h, cp, cx2, post);
    DimensionAfterDigits(w, cx, tail, Value(h, 10));
  }

  /** Digits, an `x` in either case, then a tail whose own digits are followed by `px`. */
  lemma DimensionAfterDigits(w: string, cx: char, tail: string, height: nat)
    requires |w| >= 1 && DigitsIn(w, 10) && IsX(cx)
    requires HeightPart(tail) == Some(height)
    ensures DimensionAt(w + ([cx] + tail)) == Some((Value(w, 10), height))
  {
    var body := w + ([cx] + tail);
    SpanOf(w, [cx] + tail, 10);
    assert body[..|w|] == w && body[|w|] == cx;
    assert body[|w| + 1..] == tail;
  }

  lemma HeightTail(h: string, cp: char, cx2: char, post: string)
    requires |h| >= 1 && DigitsIn(h, 10) && IsP(cp) && IsX(cx2)
    ensures HeightPart(h + ([cp, cx2] + post)) == Some(Value(h, 10))
  {
    var tail := h + ([cp, cx2] + post);
    SpanOf(h, [cp, cx2] + post, 10);
    assert tail[..|h|] == h && tail[|h|] == cp && tail[|h| + 1] == cx2;
  }

  /** Encoding an icon whose pixel count is a whole number of bytes and decoding
      the text gives the same icon back. */
  lemma DecodeEncode(icon: Bitmap)
    requires icon.Valid() && |icon.bits| % 8 == 0
    ensures DecodeText(EncodeText(icon)) == icon
  {
    var data := Pack(icon.bits);
    var lines := EncodedLines(icon);
    var n := icon.width * icon.height;
    assert n == |icon.bits| && |data| == n / 8;
    assert Reconcile(data, n / 8) == data;
    UnpackPack(icon.bits);
  }

  /** The encoded text splits into the size line and the token line, and its
      tokens are the packed bytes. */
  lemma EncodedLines(icon: Bitmap) returns (lines: seq<string>)
    requires icon.Valid() && |icon.bits| % 8 == 0
    ensures lines == Split(EncodeText(icon), '\n')
    ensures Dimensions(lines) == (icon.width, icon.height)
    ensures DataTokens(lines) == Pack(icon.bits)
  {
    var header := SizeLine(icon.width, icon.height);
    var data := HexList(Pack(icon.bits));
    SizeLineDeclares(icon.width, icon.height);
    assert EncodeText(icon) == Join([header, data], '\n');
    SplitJoin([header, data], '\n');
    lines := [header, data];
    TokenLine(header, data);
    assert lines[0] == header;
    HexTokensOfList(Pack(icon.bits));
  }

  /** A comment line followed by a line that is not one: only the second
      line's text is scanned for tokens. */
  lemma TokenLine(header: string, data: string)
    requires IsComment(header)
    requires data == [] || data[0] == '0'
    ensures DataTokens([header, data]) == HexTokens(data)
  {
    var lines := [header, data];
    assert !IsComment(data) by {
      if data != [] { assert TrimStart(data) == data; }
    }
    assert DataLines(lines) == [data] by {
      assert lines[1..] == [data];
      assert DataLines(lines[1..]) == [data] + DataLines([]);
    }
  }
}
