/** The colour-string parser of utils/convert.go: `HexStringToColor` and
    `ParseUint8FromHexString`. A Go string is a sequence of bytes; here a
    `string` holds one char per byte. */
module Convert {
  import opened Wrappers
  import opened Text

  type uint8 = x: int | 0 <= x < 256

  /** Go's `color.RGBA`. */
  datatype Rgba = Rgba(r: uint8, g: uint8, b: uint8, a: uint8)

  /** The `Err` of the `*strconv.NumError` that `strconv.ParseUint` returns,
      with the input it was given. */
  datatype NumError = ErrSyntax(num: string) | ErrRange(num: string)

  datatype Channel = Red | Green | Blue | Alpha

  /** The errors `HexStringToColor` wraps: a bad length (with the string
      after the `#` was stripped), or the pair of one channel that did not
      parse. */
  datatype ColorError = InvalidLength(hex: string) | InvalidChannel(channel: Channel, cause: NumError)

  /** The three draws `randomColor` takes from math/rand, one per channel. */
  datatype RandomDraw = RandomDraw(r: uint8, g: uint8, b: uint8)

  // ---------------------------------------------------------------------
  // Hex digits, as strconv.ParseUint reads them for base 16

  predicate IsHexDigit(c: char) {
    '0' <= c <= '9' || 'a' <= c <= 'f' || 'A' <= c <= 'F'
  }

  predicate AllHex(s: string) {
    forall i :: 0 <= i < |s| ==> IsHexDigit(s[i])
  }

  function HexDigitValue(c: char): (d: nat)
    requires IsHexDigit(c)
    ensures d < 16
  {
    if '0' <= c <= '9' then c as int - '0' as int
    else if 'a' <= c <= 'f' then c as int - 'a' as int + 10
    else c as int - 'A' as int + 10
  }

  /** The value of a string of hex digits, most significant first: the
      reference meaning of a hex numeral. */
  function HexValue(s: string): nat
    requires AllHex(s)
  {
    if s == [] then 0 else HexValue(s[..|s| - 1]) * 16 + HexDigitValue(s[|s| - 1])
  }

  /** Appending digits never makes a hex numeral smaller. */
  lemma {:induction false} HexValuePrefix(s: string, j: nat)
    requires AllHex(s) && j <= |s|
    ensures HexValue(s[..j]) <= HexValue(s)
    decreases |s| - j
  {
    if j < |s| {
      assert s[..|s| - 1][..j] == s[..j];
      HexValuePrefix(s[..|s| - 1], j);
      assert s[..|s|][..|s| - 1] == s[..|s| - 1];
    } else {
      assert s[..j] == s;
    }
  }

  /** A pair of hex digits is the high digit times 16 plus the low one, so
      it always fits in a byte. */
  lemma PairValueDigits(s: string)
    requires |s| == 2 && AllHex(s)
    ensures HexValue(s) == HexDigitValue(s[0]) * 16 + HexDigitValue(s[1]) <= 255
  {
    var hi := s[..1];
    assert hi[..0] == [];
    assert HexValue(hi) == HexDigitValue(s[0]);
    assert s[..|s| - 1] == hi;
  }

  // ---------------------------------------------------------------------
  // ParseUint8FromHexString

  /** The digit loop of `strconv.ParseUint(s, 16, 8)` from position `i`,
      where `n` is the value of the digits before it: a digit outside the
      base is a syntax error, and a running value above 255 (the largest
      8-bit value) a range error, whichever comes first. */
  function ScanHex(s: string, i: nat, n: nat): (r: Result<uint8, NumError>)
    requires i <= |s| && AllHex(s[..i]) && n == HexValue(s[..i]) && n <= 255
    ensures r.Success? <==> AllHex(s) && HexValue(s) <= 255
    ensures r.Success? ==> r.value == HexValue(s)
    decreases |s| - i
  {
    if i == |s| then
      assert s[..i] == s;
      Success(n)
    else if !IsHexDigit(s[i]) then
      Failure(ErrSyntax(s))
    else
      assert s[..i + 1][..i] == s[..i];
      var n' := n * 16 + HexDigitValue(s[i]);
      if n' > 255 then
        (if AllHex(s) then HexValuePrefix(s, i + 1); Failure(ErrRange(s)) else Failure(ErrRange(s)))
      else
        ScanHex(s, i + 1, n')
  }

  /** `ParseUint8FromHexString(s)`: succeeds exactly when `s` is a non-empty
      string of hex digits (either case) whose value fits in a byte, and then
      returns that value. */
  function ParseUint8FromHexString(s: string): (r: Result<uint8, NumError>)
    ensures r.Success? <==> s != [] && AllHex(s) && HexValue(s) <= 255
    ensures r.Success? ==> r.value == HexValue(s)
  {
    if s == [] then Failure(ErrSyntax(s)) else ScanHex(s, 0, 0)
  }

  // ---------------------------------------------------------------------
  // HexStringToColor

  /** `strings.TrimPrefix(s, "#")`: at most one leading `#` is removed. */
  function TrimHash(s: string): (r: string)
    ensures |s| > 0 && s[0] == '#' ==> r == s[1..]
    ensures (|s| == 0 || s[0] != '#') ==> r == s
  {
    if |s| > 0 && s[0] == '#' then s[1..] else s
  }

  /** `randomColor`: the three draws, fully opaque. */
  function RandomColor(draw: RandomDraw): (c: Rgba)
    ensures c.a == 255
  {
    Rgba(draw.r, draw.g, draw.b, 255)
  }

  /** The reference reading of a hex colour: three or four hex pairs, alpha
      255 when there are only three. */
  predicate ValidHexColor(hex: string) {
    (|hex| == 6 || |hex| == 8) && AllHex(hex)
  }

  function PairValue(hex: string, i: nat): (v: uint8)
    requires i + 2 <= |hex| && AllHex(hex[i..i + 2])
  {
    PairValueDigits(hex[i..i + 2]);
    HexValue(hex[i..i + 2])
  }

  function ColorOf(hex: string): Rgba
    requires ValidHexColor(hex)
  {
    Rgba(PairValue(hex, 0), PairValue(hex, 2), PairValue(hex, 4),
         if |hex| == 8 then PairValue(hex, 6) else 255)
  }

  /** One channel's pair, with the channel named in the error. */
  function ParsePair(hex: string, i: nat, channel: Channel): (r: Result<uint8, ColorError>)
    requires i + 2 <= |hex|
    ensures r.Success? <==> AllHex(hex[i..i + 2])
    ensures r.Success? ==> r.value == HexValue(hex[i..i + 2])
    ensures r.Failure? ==> r.error.InvalidChannel? && r.error.channel == channel
  {
    var p := ParseUint8FromHexString(hex[i..i + 2]);
    assert AllHex(hex[i..i + 2]) ==> HexValue(hex[i..i + 2]) <= 255 by {
      if AllHex(hex[i..i + 2]) { PairValueDigits(hex[i..i + 2]); }
    }
    if p.Failure? then Failure(InvalidChannel(channel, p.error)) else Success(p.value)
  }

  /** The keyword test `strings.ToLower(hexString) == "random"`. */
  predicate IsRandomKeyword(s: string) {
    ToLowerAscii(s) == "random"
  }

  /** What `HexStringToColor` does once the `#` is stripped: three or four
      pairs, each of which must parse, and no colour unless all of them do. */
  function ParseHex(hex: string): (r: Result<Rgba, ColorError>)
    ensures r.Success? <==> ValidHexColor(hex)
    ensures r.Success? ==> r.value == ColorOf(hex)
    ensures r.Failure? && |hex| != 6 && |hex| != 8 ==> r.error == InvalidLength(hex)
  {
    if |hex| != 6 && |hex| != 8 then Failure(InvalidLength(hex))
    else
      var rv :- ParsePair(hex, 0, Red);
      var gv :- ParsePair(hex, 2, Green);
      var bv :- ParsePair(hex, 4, Blue);
      var av :- if |hex| == 8 then ParsePair(hex, 6, Alpha) else Success(255);
      AllHexFromPairs(hex);
      Success(Rgba(rv, gv, bv, av))
  }

  /** `HexStringToColor(hexString)`, with `draw` standing for the random
      draws of `randomColor`. The keyword `random` in any letter case gives
      the random colour; anything else is parsed after one optional `#`. */
  function HexStringToColor(hexString: string, draw: RandomDraw): (r: Result<Rgba, ColorError>)
    ensures IsRandomKeyword(hexString) ==> r == Success(RandomColor(draw))
    ensures !IsRandomKeyword(hexString) ==> (r.Success? <==> ValidHexColor(TrimHash(hexString)))
    ensures !IsRandomKeyword(hexString) && r.Success? ==> r.value == ColorOf(TrimHash(hexString))
  {
    if IsRandomKeyword(hexString) then Success(RandomColor(draw)) else ParseHex(TrimHash(hexString))
  }

  /** Every slice of an all-hex text is all hex. */
  lemma AllHexSlice(s: string, a: nat, b: nat)
    requires a <= b <= |s| && AllHex(s)
    ensures AllHex(s[a..b])
  {
    forall i | 0 <= i < b - a ensures IsHexDigit(s[a..b][i]) {
      assert s[a..b][i] == s[a + i];
    }
  }

  /** A string of six or eight chars is all hex exactly when each of its
      pairs is. */
  lemma AllHexFromPairs(hex: string)
    requires |hex| == 6 || |hex| == 8
    ensures AllHex(hex) <==>
      AllHex(hex[0..2]) && AllHex(hex[2..4]) && AllHex(hex[4..6]) && (|hex| == 8 ==> AllHex(hex[6..8]))
  {
    if AllHex(hex) {
      AllHexSlice(hex, 0, 2);
      AllHexSlice(hex, 2, 4);
      AllHexSlice(hex, 4, 6);
      if |hex| == 8 {
        AllHexSlice(hex, 6, 8);
      }
    } else if AllHex(hex[0..2]) && AllHex(hex[2..4]) && AllHex(hex[4..6]) && (|hex| == 8 ==> AllHex(hex[6..8])) {
      AllHexOfPairs(hex);
    }
  }

  lemma AllHexOfPairs(hex: string)
    requires |hex| == 6 || |hex| == 8
    requires AllHex(hex[0..2]) && AllHex(hex[2..4]) && AllHex(hex[4..6]) && (|hex| == 8 ==> AllHex(hex[6..8]))
    ensures AllHex(hex)
  {
    forall i | 0 <= i < |hex| ensures IsHexDigit(hex[i]) {
      if i < 2 {
        assert hex[0..2][i] == hex[i];
      } else if i < 4 {
        assert hex[2..4][i - 2] == hex[i];
      } else if i < 6 {
        assert hex[4..6][i - 4] == hex[i];
      } else {
        assert hex[6..8][i - 6] == hex[i];
      }
    }
  }

  // ---------------------------------------------------------------------
  // Properties

  /** `random` in any letter case is accepted and gives an opaque colour. */
  lemma RandomInAnyCase(hexString: string, draw: RandomDraw)
    requires IsRandomKeyword(hexString)
    ensures HexStringToColor(hexString, draw).Success?
    ensures HexStringToColor(hexString, draw).value.a == 255
  {
  }

  /** After the optional `#` is stripped, any length other than 6 or 8 is a
      length error. */
  lemma WrongLengthRejected(hexString: string, draw: RandomDraw)
    requires !IsRandomKeyword(hexString)
    requires |TrimHash(hexString)| != 6 && |TrimHash(hexString)| != 8
    ensures HexStringToColor(hexString, draw) == Failure(InvalidLength(TrimHash(hexString)))
  {
  }

  /** A non-hex char anywhere in the pairs makes the whole parse fail: no
      partial colour is returned. */
  lemma NonHexRejected(hexString: string, draw: RandomDraw, i: nat)
    requires !IsRandomKeyword(hexString)
    requires i < |TrimHash(hexString)| && !IsHexDigit(TrimHash(hexString)[i])
    ensures HexStringToColor(hexString, draw).Failure?
  {
  }

  /** Six digits give the three pairs with alpha 255; eight digits take
      alpha from the fourth pair. */
  lemma ValidDigitsParsed(hexString: string, draw: RandomDraw)
    requires !IsRandomKeyword(hexString) && ValidHexColor(TrimHash(hexString))
    ensures var hex := TrimHash(hexString);
      HexStringToColor(hexString, draw) ==
        Success(Rgba(PairValue(hex, 0), PairValue(hex, 2), PairValue(hex, 4),
                     if |hex| == 8 then PairValue(hex, 6) else 255))
  {
  }

  /** The `#` is optional: a string that does not start with `#` parses the
      same with one in front, unless it is the `random` keyword, which is
      only recognised before the `#` is stripped (see HashRandomRejected). */
  lemma HashOptional(s: string, draw: RandomDraw)
    requires s == [] || s[0] != '#'
    requires !IsRandomKeyword(s)
    ensures HexStringToColor("#" + s, draw) == HexStringToColor(s, draw)
  {
    ToLowerAsciiChars("#" + s);
    assert !IsRandomKeyword("#" + s);
    assert TrimHash("#" + s) == s;
  }

  /** `#random` is not the keyword: it is six chars whose first pair is not
      hex. */
  lemma HashRandomRejected(draw: RandomDraw)
    ensures HexStringToColor("random", draw).Success?
    ensures HexStringToColor("#random", draw) == Failure(InvalidChannel(Red, ErrSyntax("ra")))
  {
    ToLowerAsciiChars("#random");
    ToLowerAsciiFixed("random");
    assert TrimHash("#random") == "random";
    assert "random"[0..2] == "ra";
  }

  // ---------------------------------------------------------------------
  // Round trip against a formatter

  function HexDigitChar(d: nat, upper: bool): (c: char)
    requires d < 16
    ensures IsHexDigit(c) && HexDigitValue(c) == d
  {
    if d < 10 then ('0' as int + d) as char
    else if upper then ('A' as int + d - 10) as char
    else ('a' as int + d - 10) as char
  }

  /** Two hex digits for a byte, in the chosen letter case. */
  function HexPair(v: uint8, upper: bool): (p: string)
    ensures |p| == 2 && AllHex(p) && HexValue(p) == v
  {
    var p := [HexDigitChar(v / 16, upper), HexDigitChar(v % 16, upper)];
    PairValueDigits(p);
    p
  }

  /** `#rrggbbaa` (or `#rrggbb` without alpha) in the chosen letter case. */
  function FormatHex(c: Rgba, upper: bool, withAlpha: bool): string {
    "#" + HexPair(c.r, upper) + HexPair(c.g, upper) + HexPair(c.b, upper)
        + (if withAlpha then HexPair(c.a, upper) else "")
  }

  /** Formatting any colour as `#rrggbbaa` in either case and parsing it
      gives the colour back; `#rrggbb` gives it back fully opaque. */
  lemma {:induction false} FormatThenParse(c: Rgba, upper: bool, withAlpha: bool, draw: RandomDraw)
    ensures HexStringToColor(FormatHex(c, upper, withAlpha), draw) ==
      Success(if withAlpha then c else c.(a := 255))
  {
    var s := FormatHex(c, upper, withAlpha);
    ToLowerAsciiChars(s);
    assert !IsRandomKeyword(s);
    var hex := TrimHash(s);
    var pr, pg, pb := HexPair(c.r, upper), HexPair(c.g, upper), HexPair(c.b, upper);
    var pa := if withAlpha then HexPair(c.a, upper) else "";
    assert hex == pr + pg + pb + pa;
    assert hex[0..2] == pr by { assert hex[0] == pr[0] && hex[1] == pr[1]; }
    assert hex[2..4] == pg by { assert hex[2] == pg[0] && hex[3] == pg[1]; }
    assert hex[4..6] == pb by { assert hex[4] == pb[0] && hex[5] == pb[1]; }
    assert withAlpha ==> hex[6..8] == pa by {
      if withAlpha { assert hex[6] == pa[0] && hex[7] == pa[1]; }
    }
    AllHexFromPairs(hex);
    ValidDigitsParsed(s, draw);
  }

  // ---------------------------------------------------------------------
  // The cases of utils/convert_test.go

  lemma ParseUint8ValidExamples()
    ensures ParseUint8FromHexString("00") == Success(0)
    ensures ParseUint8FromHexString("7f") == Success(127)
    ensures ParseUint8FromHexString("FF") == Success(255)
    ensures ParseUint8FromHexString("ff") == Success(255)
  {
    PairValueDigits("00");
    PairValueDigits("7f");
    PairValueDigits("FF");
    PairValueDigits("ff");
  }

  lemma ParseUint8InvalidExamples()
    ensures ParseUint8FromHexString("").Failure?
    ensures ParseUint8FromHexString("g1").Failure?
    ensures ParseUint8FromHexString("123").Failure?
    ensures ParseUint8FromHexString("xyz").Failure?
    ensures ParseUint8FromHexString("1000").Failure?
  {
    assert !IsHexDigit("g1"[0]);
    assert !IsHexDigit("xyz"[0]);
    HexValuePrefix("123", 2);
    PairValueDigits("12");
    assert "123"[..2] == "12";
    HexValuePrefix("1000", 2);
    PairValueDigits("10");
    assert "1000"[..2] == "10";
    assert HexValue("123") == HexValue("12") * 16 + 3;
    assert HexValue("1000") >= HexValue("100") * 16;
    assert "1000"[..3] == "100";
    assert HexValue("100") == HexValue("10") * 16;
  }

  lemma ValidColorExamples(draw: RandomDraw)
    ensures HexStringToColor("#ff0000", draw) == Success(Rgba(255, 0, 0, 255))
    ensures HexStringToColor("#00ff00ff", draw) == Success(Rgba(0, 255, 0, 255))
    ensures HexStringToColor("#0000ff80", draw) == Success(Rgba(0, 0, 255, 128))
  {
    RedExample(draw);
    GreenExample(draw);
    BlueExample(draw);
  }

  lemma RedExample(draw: RandomDraw)
    ensures HexStringToColor("#ff0000", draw) == Success(Rgba(255, 0, 0, 255))
  {
    FormatThenParse(Rgba(255, 0, 0, 255), false, false, draw);
    RedFormatted();
  }

  lemma RedFormatted()
    ensures FormatHex(Rgba(255, 0, 0, 255), false, false) == "#ff0000"
  {
    assert HexPair(0, false) == "00";
    assert HexPair(255, false) == "ff";
  }

  lemma GreenExample(draw: RandomDraw)
    ensures HexStringToColor("#00ff00ff", draw) == Success(Rgba(0, 255, 0, 255))
  {
    FormatThenParse(Rgba(0, 255, 0, 255), false, true, draw);
    GreenFormatted();
  }

  lemma GreenFormatted()
    ensures FormatHex(Rgba(0, 255, 0, 255), false, true) == "#00ff00ff"
  {
    assert HexPair(0, false) == "00";
    assert HexPair(255, false) == "ff";
  }

  lemma BlueExample(draw: RandomDraw)
    ensures HexStringToColor("#0000ff80", draw) == Success(Rgba(0, 0, 255, 128))
  {
    FormatThenParse(Rgba(0, 0, 255, 128), false, true, draw);
    BlueFormatted();
  }

  lemma BlueFormatted()
    ensures FormatHex(Rgba(0, 0, 255, 128), false, true) == "#0000ff80"
  {
    assert HexPair(0, false) == "00";
    assert HexPair(255, false) == "ff";
    assert HexPair(128, false) == "80";
  }

  lemma InvalidColorExamples(draw: RandomDraw)
    ensures HexStringToColor("#123", draw).Failure?
    ensures HexStringToColor("#zzzzzz", draw).Failure?
    ensures HexStringToColor("#1234567", draw).Failure?
    ensures HexStringToColor("#123456789", draw).Failure?
    ensures HexStringToColor("nothex", draw).Failure?
    ensures HexStringToColor("", draw).Failure?
  {
    BadLengthExamples(draw);
    BadDigitExamples(draw);
  }

  lemma BadLengthExamples(draw: RandomDraw)
    ensures HexStringToColor("#123", draw).Failure?
    ensures HexStringToColor("#1234567", draw).Failure?
    ensures HexStringToColor("#123456789", draw).Failure?
    ensures HexStringToColor("", draw).Failure?
  {
    BadLength("#123", draw);
    BadLength("#1234567", draw);
    BadLength("#123456789", draw);
    BadLength("", draw);
  }

  lemma BadLength(s: string, draw: RandomDraw)
    requires |s| != 6 && (s == [] || s[0] == '#') && |s| != 7 && |s| != 9
    ensures HexStringToColor(s, draw).Failure?
  {
    assert |ToLowerAscii(s)| != |"random"|;
    WrongLengthRejected(s, draw);
  }

  lemma BadDigitExamples(draw: RandomDraw)
    ensures HexStringToColor("#zzzzzz", draw).Failure?
    ensures HexStringToColor("nothex", draw).Failure?
  {
    ToLowerAsciiChars("#zzzzzz");
    ToLowerAsciiChars("nothex");
    assert !IsHexDigit(TrimHash("#zzzzzz")[0]);
    assert !IsHexDigit(TrimHash("nothex")[1]);
  }
}
