/** Terminal styling: hex colours turned into 24-bit ANSI escapes, the fixed
    palette, the one-line message format in colour and in plain mode, and the
    header with its separator rule. */
module Colors {
  import opened Common

  const Escape: char := '\U{1B}'

  /** `RESET`. */
  const Reset: string := [Escape] + "[0m"

  // The palette constants, `#` and six hex digits each; the `#` is joined on
  // so that the verifier does not evaluate the conversion of the whole literal.
  const PrimaryColor: string := "#" + "4F8EF7"    // blue
  const SecondaryColor: string := "#" + "F7B32B"  // orange
  const SuccessColor: string := "#" + "4ADE80"    // green
  const ErrorColor: string := "#" + "EF4444"      // red
  const GreyColor: string := "#" + "808080"       // grey
  const InfoColor: string := "#" + "06B6D4"       // cyan
  const WarningColor: string := "#" + "F59E0B"    // yellow

  /** A colour's red, green and blue components. */
  datatype Rgb = Rgb(red: nat, green: nat, blue: nat)

  predicate InRange(c: Rgb)
  {
    c.red < 256 && c.green < 256 && c.blue < 256
  }

  // ---------------------------------------------------------------------------
  // hex_to_ansi
  // ---------------------------------------------------------------------------

  function HexDigitValue(ch: char): (v: Option<nat>)
    ensures v.Some? ==> v.value < 16
  {
    if '0' <= ch <= '9' then Some(ch as nat - '0' as nat)
    else if 'a' <= ch <= 'f' then Some(ch as nat - 'a' as nat + 10)
    else if 'A' <= ch <= 'F' then Some(ch as nat - 'A' as nat + 10)
    else None
  }

  /** `int(text, 16)` on the slices of at most two characters `hex_to_ansi`
      takes; the empty slice and a character that is no hex digit raise. */
  function ParseHex(text: string): (v: Option<nat>)
    ensures v.Some? ==> 1 <= |text| <= 2 && v.value < 256
    ensures v.Some? && |text| == 1 ==> v.value < 16
  {
    if |text| == 1 then HexDigitValue(text[0])
    else if |text| == 2 then
      match (HexDigitValue(text[0]), HexDigitValue(text[1]))
      case (Some(high), Some(low)) => Some(16 * high + low)
      case _ => None
    else None
  }

  /** `s[i : i + 2]`, cut short at the end of the string as Python slices are. */
  function Pair(s: string, i: nat): (r: string)
    ensures |r| <= 2
  {
    if i >= |s| then [] else if i + 2 >= |s| then s[i..] else s[i..i + 2]
  }

  /** The components `hex_to_ansi` reads after dropping the leading `#`s: the
      characters at offsets 0, 2 and 4 and the ones after them; `None` when
      `int` raises on one of the slices. */
  function ParseColor(hexColor: string): (c: Option<Rgb>)
    ensures c.Some? ==> InRange(c.value) && |LStrip(hexColor, {'#'})| >= 5
  {
    var h := LStrip(hexColor, {'#'});
    match (ParseHex(Pair(h, 0)), ParseHex(Pair(h, 2)), ParseHex(Pair(h, 4)))
    case (Some(red), Some(green), Some(blue)) => Some(Rgb(red, green, blue))
    case _ => None
  }

  /** The 24-bit foreground escape `ESC[38;2;R;G;Bm`. */
  function Ansi(c: Rgb): string
  {
    [Escape] + "[38;2;" + NatToString(c.red) + ";" + NatToString(c.green) + ";" + NatToString(c.blue) + "m"
  }

  /** `hex_to_ansi(hex_color)`: `None` where the conversion raises. */
  function HexToAnsi(hexColor: string): (r: Option<string>)
    ensures r.Some? <==> ParseColor(hexColor).Some?
  {
    match ParseColor(hexColor)
    case None => None
    case Some(c) => Some(Ansi(c))
  }

  /** The escape `hex_to_ansi` gives reads back as the components the colour
      spells. */
  lemma HexToAnsiDecodes(hexColor: string)
    ensures HexToAnsi(hexColor).Some? ==> DecodeAnsi(HexToAnsi(hexColor).value) == ParseColor(hexColor)
  {
    if ParseColor(hexColor).Some? {
      AnsiDecodes(ParseColor(hexColor).value);
    }
  }

  // ---------------------------------------------------------------------------
  // Reading an escape back, and writing a colour
  // ---------------------------------------------------------------------------

  const AnsiPrefix: string := [Escape] + "[38;2;"

  predicate AllDigits(s: string)
  {
    forall i :: 0 <= i < |s| ==> '0' <= s[i] <= '9'
  }

  /** A terminal's reading of a 24-bit foreground escape. */
  function DecodeAnsi(s: string): Option<Rgb>
  {
    if |s| > |AnsiPrefix| && s[..|AnsiPrefix|] == AnsiPrefix && s[|s| - 1] == 'm' then
      var parts := Split(s[|AnsiPrefix|..|s| - 1], ';');
      if |parts| == 3 && AllDigits(parts[0]) && AllDigits(parts[1]) && AllDigits(parts[2])
      then Some(Rgb(DecimalValue(parts[0]), DecimalValue(parts[1]), DecimalValue(parts[2])))
      else None
    else None
  }

  /** Every escape `hex_to_ansi` writes reads back as its components. */
  lemma AnsiDecodes(c: Rgb)
    ensures DecodeAnsi(Ansi(c)) == Some(c)
  {
    var r, g, b := NatToString(c.red), NatToString(c.green), NatToString(c.blue);
    var middle := r + ";" + g + ";" + b;
    assert Ansi(c) == AnsiPrefix + middle + "m";
    CutAround(AnsiPrefix, middle, Ansi(c));
    JoinThree(r, g, b);
    SplitJoin([r, g, b], ';');
    DecodeParts(Ansi(c), r, g, b);
    DecimalRoundTrip(c.red);
    DecimalRoundTrip(c.green);
    DecimalRoundTrip(c.blue);
  }

  /** The reading of an escape whose middle splits into three numbers. */
  lemma DecodeParts(s: string, r: string, g: string, b: string)
    requires |s| > |AnsiPrefix| && s[..|AnsiPrefix|] == AnsiPrefix && s[|s| - 1] == 'm'
    requires Split(s[|AnsiPrefix|..|s| - 1], ';') == [r, g, b]
    requires AllDigits(r) && AllDigits(g) && AllDigits(b)
    ensures DecodeAnsi(s) == Some(Rgb(DecimalValue(r), DecimalValue(g), DecimalValue(b)))
  {
  }

  lemma CutAround(prefix: string, middle: string, s: string)
    requires s == prefix + middle + "m"
    ensures |s| > |prefix| && s[..|prefix|] == prefix && s[|prefix|..|s| - 1] == middle && s[|s| - 1] == 'm'
  {
  }

  lemma JoinThree(a: string, b: string, c: string)
    ensures Join([a, b, c], ';') == a + ";" + b + ";" + c
  {
    assert [a, b, c][1..] == [b, c];
    assert [b, c][1..] == [c];
    assert Join([b, c], ';') == b + [';'] + c;
    assert Join([a, b, c], ';') == a + [';'] + (b + [';'] + c);
  }

  /** The digit `"0123456789ABCDEF"[k]`. */
  function HexChar(k: nat): char
    requires k < 16
  {
    if k < 10 then ('0' as int + k) as char else ('A' as int + k - 10) as char
  }

  /** The two upper-case digits of a byte, as the colour constants are written. */
  function HexByte(n: nat): (s: string)
    requires n < 256
    ensures |s| == 2
  {
    [HexChar(n / 16), HexChar(n % 16)]
  }

  /** `"#RRGGBB"`. */
  function HexColor(c: Rgb): (s: string)
    requires InRange(c)
    ensures |s| == 7
  {
    "#" + HexByte(c.red) + HexByte(c.green) + HexByte(c.blue)
  }

  lemma HexByteParses(n: nat)
    requires n < 256
    ensures ParseHex(HexByte(n)) == Some(n)
  {
  }

  /** Writing a colour as `#RRGGBB` and converting it gives the colour back,
      whatever follows the sixth digit. */
  lemma ParseColorRoundTrip(c: Rgb, rest: string)
    requires InRange(c)
    ensures ParseColor(HexColor(c) + rest) == Some(c)
    ensures HexToAnsi(HexColor(c) + rest) == Some(Ansi(c))
  {
    var body := HexByte(c.red) + HexByte(c.green) + HexByte(c.blue) + rest;
    assert HexColor(c) + rest == "#" + body;
    assert ("#" + body)[1..] == body;
    assert LStrip(HexColor(c) + rest, {'#'}) == body;
    assert Pair(body, 0) == HexByte(c.red);
    assert Pair(body, 2) == HexByte(c.green);
    assert Pair(body, 4) == HexByte(c.blue);
    HexByteParses(c.red);
    HexByteParses(c.green);
    HexByteParses(c.blue);
  }

  /** Any number of leading `#`s is dropped. */
  lemma LeadingHashIgnored(s: string)
    ensures ParseColor("#" + s) == ParseColor(s)
    ensures HexToAnsi("#" + s) == HexToAnsi(s)
  {
    assert ("#" + s)[1..] == s;
  }

  /** Five digits are enough: the last slice holds one digit, the blue value. */
  lemma FiveDigitColor(hex: string, digits: seq<char>, c: Rgb)
    requires |digits| == 5 && hex == ['#'] + digits
    requires forall i :: 0 <= i < 5 ==> HexDigitValue(digits[i]).Some?
    requires c.red == 16 * HexDigitValue(digits[0]).value + HexDigitValue(digits[1]).value
    requires c.green == 16 * HexDigitValue(digits[2]).value + HexDigitValue(digits[3]).value
    requires c.blue == HexDigitValue(digits[4]).value
    ensures ParseColor(hex) == Some(c)
  {
    assert hex[1..] == digits;
    assert LStrip(hex, {'#'}) == digits;
    assert Pair(digits, 0) == digits[0..2] == [digits[0], digits[1]];
    assert ParseHex([digits[0], digits[1]]) == Some(c.red);
    assert Pair(digits, 2) == digits[2..4] == [digits[2], digits[3]];
    assert ParseHex([digits[2], digits[3]]) == Some(c.green);
    assert Pair(digits, 4) == [digits[4]];
    assert ParseHex([digits[4]]) == Some(c.blue);
  }

  /** A colour written out as `#` and six digits reads as the digits' values. */
  lemma SixDigits(hex: string, digits: seq<char>, c: Rgb)
    requires |digits| == 6 && hex == ['#'] + digits
    requires forall i :: 0 <= i < 6 ==> HexDigitValue(digits[i]).Some?
    requires c.red == 16 * HexDigitValue(digits[0]).value + HexDigitValue(digits[1]).value
    requires c.green == 16 * HexDigitValue(digits[2]).value + HexDigitValue(digits[3]).value
    requires c.blue == 16 * HexDigitValue(digits[4]).value + HexDigitValue(digits[5]).value
    ensures ParseColor(hex) == Some(c)
  {
    assert hex[1..] == digits;
    assert LStrip(hex, {'#'}) == digits;
    assert Pair(digits, 0) == digits[0..2] == [digits[0], digits[1]];
    assert ParseHex([digits[0], digits[1]]) == Some(c.red);
    assert Pair(digits, 2) == digits[2..4] == [digits[2], digits[3]];
    assert ParseHex([digits[2], digits[3]]) == Some(c.green);
    assert Pair(digits, 4) == digits[4..6] == [digits[4], digits[5]];
    assert ParseHex([digits[4], digits[5]]) == Some(c.blue);
  }

  // ---------------------------------------------------------------------------
  // get_colors
  // ---------------------------------------------------------------------------

  const ColorNames: set<string> := {"primary", "secondary", "success", "error", "grey", "info", "warning", "reset"}

  /** The palette constant behind each colour style. */
  function PaletteHex(name: string): Option<string>
  {
    if name == "primary" then Some(PrimaryColor)
    else if name == "secondary" then Some(SecondaryColor)
    else if name == "success" then Some(SuccessColor)
    else if name == "error" then Some(ErrorColor)
    else if name == "grey" then Some(GreyColor)
    else if name == "info" then Some(InfoColor)
    else if name == "warning" then Some(WarningColor)
    else None
  }

  /** The components of each palette constant, in decimal. */
  function PaletteRgb(name: string): Rgb
  {
    if name == "primary" then Rgb(79, 142, 247)
    else if name == "secondary" then Rgb(247, 179, 43)
    else if name == "success" then Rgb(74, 222, 128)
    else if name == "error" then Rgb(239, 68, 68)
    else if name == "grey" then Rgb(128, 128, 128)
    else if name == "info" then Rgb(6, 182, 212)
    else Rgb(245, 158, 11)
  }

  /** Every palette constant converts, to the components listed above. */
  lemma PaletteComponents(name: string)
    requires PaletteHex(name).Some?
    ensures ParseColor(PaletteHex(name).value) == Some(PaletteRgb(name))
  {
    if name == "primary" {
      SixDigits(PrimaryColor, "4F8EF7", Rgb(79, 142, 247));
    } else if name == "secondary" {
      SixDigits(SecondaryColor, "F7B32B", Rgb(247, 179, 43));
    } else if name == "success" {
      SixDigits(SuccessColor, "4ADE80", Rgb(74, 222, 128));
    } else if name == "error" {
      SixDigits(ErrorColor, "EF4444", Rgb(239, 68, 68));
    } else if name == "grey" {
      SixDigits(GreyColor, "808080", Rgb(128, 128, 128));
    } else if name == "info" {
      SixDigits(InfoColor, "06B6D4", Rgb(6, 182, 212));
    } else {
      SixDigits(WarningColor, "F59E0B", Rgb(245, 158, 11));
    }
  }

  /** `hex_to_ansi` of a style's palette constant. */
  function ColorCode(name: string): (code: string)
    requires PaletteHex(name).Some?
    ensures HexToAnsi(PaletteHex(name).value) == Some(code)
  {
    PaletteComponents(name);
    HexToAnsi(PaletteHex(name).value).value
  }

  /** Each style's code is the escape of its constant's components, and reads
      back as them. */
  lemma ColorCodeIsAnsi(name: string)
    requires PaletteHex(name).Some?
    ensures ColorCode(name) == Ansi(PaletteRgb(name))
    ensures DecodeAnsi(ColorCode(name)) == Some(PaletteRgb(name))
  {
    PaletteComponents(name);
    AnsiDecodes(PaletteRgb(name));
  }

  /** `get_colors()`: exactly the eight styles, `reset` as `RESET` and every
      other style as the escape of its palette constant. */
  function GetColors(): (c: map<string, string>)
    ensures c.Keys == ColorNames
    ensures c["reset"] == Reset
    ensures forall name | name in c && name != "reset" :: c[name] == ColorCode(name)
  {
    map name | name in ColorNames :: if name == "reset" then Reset else ColorCode(name)
  }

  // ---------------------------------------------------------------------------
  // What a terminal shows
  // ---------------------------------------------------------------------------

  /** The text after the first `m`: the rest of an escape sequence is dropped. */
  function SkipEscape(s: string): (r: string)
    ensures |r| <= |s|
  {
    if s == [] then [] else if s[0] == 'm' then s[1..] else SkipEscape(s[1..])
  }

  /** The characters a terminal prints, escape sequences left out. */
  function Visible(s: string): string
    decreases |s|
  {
    if s == [] then [] else if s[0] == Escape then Visible(SkipEscape(s[1..])) else [s[0]] + Visible(s[1..])
  }

  /** A complete escape sequence: `ESC`, then anything but `m`, then `m`. */
  predicate IsCode(code: string)
  {
    |code| >= 2 && code[0] == Escape && code[|code| - 1] == 'm' && 'm' !in code[1..|code| - 1]
  }

  /** A palette of the styles `format_message` and `print_header` use, each an
      escape sequence. */
  ghost predicate Styles(colors: map<string, string>)
  {
    && ColorNames <= colors.Keys
    && forall name | name in ColorNames :: IsCode(colors[name])
  }

  lemma {:induction false} VisiblePlain(a: string, b: string)
    requires Escape !in a
    ensures Visible(a + b) == a + Visible(b)
  {
    if a != [] {
      assert (a + b)[1..] == a[1..] + b;
      VisiblePlain(a[1..], b);
      assert [a[0]] + a[1..] == a;
    } else {
      assert a + b == b;
    }
  }

  lemma {:induction false} SkipThrough(body: string, b: string)
    requires 'm' !in body
    ensures SkipEscape(body + "m" + b) == b
  {
    if body == [] {
      assert body + "m" + b == ['m'] + b;
    } else {
      assert (body + "m" + b)[1..] == body[1..] + "m" + b;
      SkipThrough(body[1..], b);
    }
  }

  lemma VisibleCode(code: string, b: string)
    requires IsCode(code)
    ensures Visible(code + b) == Visible(b)
  {
    var body := code[1..|code| - 1];
    assert (code + b)[1..] == body + "m" + b;
    SkipThrough(body, b);
  }

  lemma AnsiIsCode(c: Rgb)
    ensures IsCode(Ansi(c))
  {
    var a := Ansi(c);
    var middle := "[38;2;" + NatToString(c.red) + ";" + NatToString(c.green) + ";" + NatToString(c.blue);
    assert a == [Escape] + middle + "m";
    assert a[1..|a| - 1] == middle;
  }

  /** The palette `get_colors` gives is made of escape sequences. */
  lemma GetColorsStyles()
    ensures Styles(GetColors())
  {
    forall name | name in ColorNames
      ensures IsCode(GetColors()[name])
    {
      StyleIsCode(name);
    }
  }

  lemma StyleIsCode(name: string)
    requires name in ColorNames
    ensures IsCode(GetColors()[name])
  {
    if name != "reset" {
      ColorCodeIsAnsi(name);
      AnsiIsCode(PaletteRgb(name));
    } else {
      ResetIsCode();
    }
  }

  lemma ResetIsCode()
    ensures IsCode(Reset)
  {
    assert Reset[1..|Reset| - 1] == "[0";
  }

  // ---------------------------------------------------------------------------
  // format_message
  // ---------------------------------------------------------------------------

  /** The plain-mode prefix of a message type; none for any other type. */
  function SimplePrefix(messageType: string): string
  {
    if messageType == "error" then "ERROR: "
    else if messageType == "success" then "SUCCESS: "
    else if messageType == "warning" then "WARNING: "
    else if messageType == "info" then "INFO: "
    else if messageType == "progress" then "PROGRESS: "
    else ""
  }

  const PlainTypes: set<string> := {"error", "success", "warning", "info", "progress"}

  /** The bare glyph of a message type: `symbols` without its colours. */
  function Glyph(messageType: string): string
  {
    if messageType == "progress" then "\U{27A4}"
    else if messageType == "success" then "\U{2714}"
    else if messageType == "error" then "\U{2716}"
    else if messageType == "info" then "\U{2139}"
    else if messageType == "warning" then "\U{26A0}"
    else if messageType == "question" then "?"
    else ""
  }

  /** The style of a message type's glyph. */
  function GlyphStyle(messageType: string): (name: string)
    ensures name in ColorNames
  {
    if messageType == "progress" || messageType == "question" then "primary"
    else if messageType == "success" then "success"
    else if messageType == "error" then "error"
    else if messageType == "info" then "info"
    else "warning"
  }

  /** `symbols.get(message_type, "")`: the glyph between its colour and `reset`. */
  function Symbol(colors: map<string, string>, messageType: string): string
    requires ColorNames <= colors.Keys
  {
    if Glyph(messageType) == "" then "" else colors[GlyphStyle(messageType)] + Glyph(messageType) + colors["reset"]
  }

  /** The colour-mode line: what precedes the message, then the message, then `reset`. */
  function Styled(colors: map<string, string>, messageType: string, message: string): string
    requires ColorNames <= colors.Keys
  {
    "  " + Symbol(colors, messageType) + " " + colors["grey"] + message + colors["reset"]
  }

  /** `format_message(message_type, message, simple_mode)`. In simple mode the
      line ends with the message, is the message itself iff the type is not
      one of the five plain types, and adds no escape. In colour mode it shows
      on screen as two spaces, the glyph, a space and the message. */
  function FormatMessage(messageType: string, message: string, simpleMode: bool): (r: string)
    ensures simpleMode ==> |message| <= |r| && r[|r| - |message|..] == message
    ensures simpleMode ==> (r == message <==> messageType !in PlainTypes)
    ensures simpleMode && Escape !in message ==> Escape !in r
    ensures !simpleMode && Escape !in message ==> Visible(r) == "  " + Glyph(messageType) + " " + message
  {
    if simpleMode then
      var line := SimplePrefix(messageType) + message;
      assert line[|line| - |message|..] == message;
      line
    else
      var colors := GetColors();
      var line := Styled(colors, messageType, message);
      if Escape in message then line
      else
        GetColorsStyles();
        VisibleStyled(colors, messageType, message);
        line
  }

  /** The message can be read back from the line: two messages of the same
      type in the same mode give the same line only if they are the same. */
  lemma FormatMessageInjective(messageType: string, m1: string, m2: string, simpleMode: bool)
    requires FormatMessage(messageType, m1, simpleMode) == FormatMessage(messageType, m2, simpleMode)
    ensures m1 == m2
  {
    if simpleMode {
      CancelAround(SimplePrefix(messageType), m1, m2, "");
    } else {
      var colors := GetColors();
      var lead := "  " + Symbol(colors, messageType) + " " + colors["grey"];
      assert Styled(colors, messageType, m1) == lead + m1 + colors["reset"];
      assert Styled(colors, messageType, m2) == lead + m2 + colors["reset"];
      CancelAround(lead, m1, m2, colors["reset"]);
    }
  }

  /** Plain mode prefixes exactly the five plain types, keeps every other
      message as it is, and adds no escape sequence. */
  lemma SimpleMode(messageType: string, message: string)
    ensures SimplePrefix(messageType) != "" <==> messageType in PlainTypes
    ensures messageType !in PlainTypes ==> FormatMessage(messageType, message, true) == message
    ensures Escape !in message ==> Escape !in FormatMessage(messageType, message, true)
  {
    if messageType !in PlainTypes {
      assert SimplePrefix(messageType) + message == message;
    }
  }

  /** On screen a colour line reads as two spaces, the glyph, a space and the
      message, whatever escapes the palette holds. */
  lemma VisibleStyled(colors: map<string, string>, messageType: string, message: string)
    requires Styles(colors) && Escape !in message
    ensures Visible(Styled(colors, messageType, message)) == "  " + Glyph(messageType) + " " + message
  {
    var grey, reset := colors["grey"], colors["reset"];
    var symbol := Symbol(colors, messageType);
    var glyph := Glyph(messageType);
    assert Escape !in glyph;
    if glyph != "" {
      VisibleSymbolLine(colors[GlyphStyle(messageType)], glyph, grey, reset, message);
    } else {
      VisibleSymbolLine("", "", grey, reset, message);
    }
    assert Styled(colors, messageType, message) == "  " + symbol + " " + grey + message + reset;
  }

  /** The visible text of a line `"  " + symbol + " " + grey + message + reset`,
      with or without a symbol. */
  lemma VisibleSymbolLine(code: string, glyph: string, grey: string, reset: string, message: string)
    requires code == "" ==> glyph == ""
    requires code != "" ==> IsCode(code)
    requires IsCode(grey) && IsCode(reset) && Escape !in glyph && Escape !in message
    ensures var symbol := if code == "" then "" else code + glyph + reset;
      Visible("  " + symbol + " " + grey + message + reset) == "  " + glyph + " " + message
  {
    var symbol := if code == "" then "" else code + glyph + reset;
    var rest := " " + grey + message + reset;
    VisibleTail(grey, reset, message);
    VisibleSymbol(code, glyph, reset, rest);
    Regroup("  ", symbol, " ", grey, message, reset);
    VisiblePlain("  ", symbol + rest);
    Regroup3("  ", glyph, " ", message);
  }

  /** A symbol, coloured or absent, shows as its glyph. */
  lemma VisibleSymbol(code: string, glyph: string, reset: string, rest: string)
    requires code == "" ==> glyph == ""
    requires code != "" ==> IsCode(code)
    requires IsCode(reset) && Escape !in glyph
    ensures Visible((if code == "" then "" else code + glyph + reset) + rest) == glyph + Visible(rest)
  {
    if code != "" {
      assert code + glyph + reset + rest == code + (glyph + (reset + rest));
      VisibleCode(code, glyph + (reset + rest));
      VisiblePlain(glyph, reset + rest);
      VisibleCode(reset, rest);
    } else {
      assert [] + rest == rest;
    }
  }

  lemma Regroup(a: string, b: string, c: string, d: string, e: string, f: string)
    ensures a + b + c + d + e + f == a + (b + (c + d + e + f))
  {
  }

  lemma Regroup3(a: string, b: string, c: string, d: string)
    ensures a + (b + (c + d)) == a + b + c + d
  {
  }

  lemma VisibleTail(grey: string, reset: string, message: string)
    requires IsCode(grey) && IsCode(reset) && Escape !in message
    ensures Visible(" " + grey + message + reset) == " " + message
  {
    assert Visible(reset) == [] by {
      VisibleCode(reset, []);
      assert reset + [] == reset;
    }
    VisiblePlain(message, reset);
    VisibleCode(grey, message + reset);
    Regroup4(" ", grey, message, reset);
    VisiblePlain(" ", grey + (message + reset));
  }

  lemma Regroup4(a: string, b: string, c: string, d: string)
    ensures a + b + c + d == a + (b + (c + d))
  {
  }

  /** Colour mode shows a glyph for exactly the five plain types and
      `question`, which plain mode leaves without a prefix. */
  lemma GlyphTypes(messageType: string)
    ensures Glyph(messageType) != "" <==> messageType in PlainTypes || messageType == "question"
    ensures SimplePrefix("question") == ""
  {
    if messageType in PlainTypes {
      assert messageType == "error" || messageType == "success" || messageType == "warning"
             || messageType == "info" || messageType == "progress";
    }
  }

  /** On screen a colour-mode message reads as two spaces, the glyph, a space
      and the message. */
  lemma ColourMode(messageType: string, message: string)
    requires Escape !in message
    ensures Visible(FormatMessage(messageType, message, false)) == "  " + Glyph(messageType) + " " + message
  {
    GetColorsStyles();
    VisibleStyled(GetColors(), messageType, message);
  }

  /** `lead + m + tail` determines `m`. */
  lemma CancelAround(lead: string, m1: string, m2: string, tail: string)
    requires lead + m1 + tail == lead + m2 + tail
    ensures m1 == m2
  {
    assert |m1| == |m2|;
    assert m1 == (lead + m1 + tail)[|lead|..|lead| + |m1|];
    assert m2 == (lead + m2 + tail)[|lead|..|lead| + |m2|];
  }

  // ---------------------------------------------------------------------------
  // print_header
  // ---------------------------------------------------------------------------

  /** A subtitle Python treats as true: given and not empty. */
  predicate HasSubtitle(subtitle: Option<string>)
  {
    subtitle.Some? && subtitle.value != ""
  }

  /** `total_length`: the title, and `" - "` and the subtitle when there is one. */
  function SeparatorLength(title: string, subtitle: Option<string>): nat
  {
    |title| + (if HasSubtitle(subtitle) then |subtitle.value| + 3 else 0)
  }

  const RuleChar: char := '\U{2500}'

  /** `'─' * n`. */
  function Rule(n: nat): (r: string)
    ensures |r| == n && forall i :: 0 <= i < n ==> r[i] == RuleChar
  {
    seq(n, _ => RuleChar)
  }

  /** The colour-mode title line, after its leading newline and indent. */
  function TitleLine(colors: map<string, string>, title: string, subtitle: Option<string>): string
    requires ColorNames <= colors.Keys
  {
    if HasSubtitle(subtitle) then
      colors["primary"] + title + colors["reset"] + " " + colors["grey"] + "- " + colors["secondary"] + subtitle.value
      + colors["reset"]
    else colors["primary"] + title + colors["reset"]
  }

  /** The plain-mode header line. */
  function PlainTitle(title: string, subtitle: Option<string>): string
  {
    if HasSubtitle(subtitle) then title + " - " + subtitle.value else title
  }

  /** What `print_header(title, subtitle, simple_mode)` writes, each `print`
      ending with a newline. */
  function PrintHeader(title: string, subtitle: Option<string>, simpleMode: bool): string
  {
    if simpleMode then PlainTitle(title, subtitle) + "\n"
    else
      var colors := GetColors();
      "\n  " + TitleLine(colors, title, subtitle) + "\n"
      + "  " + colors["grey"] + Rule(SeparatorLength(title, subtitle)) + colors["reset"] + "\n" + "\n"
  }

  /** On screen the colour title line reads as the plain one, whatever escapes
      the palette holds. */
  lemma VisibleTitleLine(colors: map<string, string>, title: string, subtitle: Option<string>)
    requires Styles(colors) && Escape !in title && (subtitle.Some? ==> Escape !in subtitle.value)
    ensures Visible(TitleLine(colors, title, subtitle)) == PlainTitle(title, subtitle)
  {
    var p, g, s, r := colors["primary"], colors["grey"], colors["secondary"], colors["reset"];
    if HasSubtitle(subtitle) {
      var tail := " " + g + "- " + s + subtitle.value + r;
      VisibleSubtitle(g, s, r, subtitle.value);
      VisibleLead(p, title, r, tail);
      assert TitleLine(colors, title, subtitle) == p + title + r + tail;
    } else {
      assert Visible([]) == [];
      VisibleLead(p, title, r, []);
      assert TitleLine(colors, title, subtitle) == p + title + r + [];
    }
  }

  lemma VisibleLead(p: string, title: string, r: string, tail: string)
    requires IsCode(p) && IsCode(r) && Escape !in title
    ensures Visible(p + title + r + tail) == title + Visible(tail)
  {
    VisibleCode(r, tail);
    VisiblePlain(title, r + tail);
    VisibleCode(p, title + (r + tail));
    assert p + title + r + tail == p + (title + (r + tail));
  }

  lemma VisibleSubtitle(g: string, s: string, r: string, subtitle: string)
    requires IsCode(g) && IsCode(s) && IsCode(r) && Escape !in subtitle
    ensures Visible(" " + g + "- " + s + subtitle + r) == " - " + subtitle
  {
    VisibleDashed(" ", g, "- ", s, subtitle, r);
    assert " " + ("- " + subtitle) == " - " + subtitle;
  }

  /** `sp + g + dash + s + text + r` shows as `sp + dash + text` when the three
      codes are escapes. */
  lemma VisibleDashed(sp: string, g: string, dash: string, s: string, text: string, r: string)
    requires IsCode(g) && IsCode(s) && IsCode(r) && Escape !in sp && Escape !in dash && Escape !in text
    ensures Visible(sp + g + dash + s + text + r) == sp + (dash + text)
  {
    assert Visible(r) == [] by {
      VisibleCode(r, []);
      assert r + [] == r;
    }
    VisiblePlain(text, r);
    VisibleCode(s, text + r);
    VisiblePlain(dash, s + (text + r));
    VisibleCode(g, dash + (s + (text + r)));
    VisiblePlain(sp, g + (dash + (s + (text + r))));
    Regroup(sp, g, dash, s, text, r);
    Regroup4(dash, s, text, r);
  }

  /** The rule is as long as the title line shows on screen, and that line is
      the plain-mode header: the separator underlines exactly the visible
      title and subtitle. Stated for any palette of escape codes, which
      `GetColors()` is by `GetColorsStyles`. */
  lemma HeaderRuleMatchesTitle(colors: map<string, string>, title: string, subtitle: Option<string>)
    requires Styles(colors) && Escape !in title && (subtitle.Some? ==> Escape !in subtitle.value)
    ensures PrintHeader(title, subtitle, true) == Visible(TitleLine(colors, title, subtitle)) + "\n"
    ensures |Visible(TitleLine(colors, title, subtitle))| == SeparatorLength(title, subtitle)
  {
    VisibleTitleLine(colors, title, subtitle);
  }
}
