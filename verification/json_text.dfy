/** The JSON text the proxy writes itself: `json.dumps` of a flat dictionary
    whose values are strings or integers, with the library defaults
    (`ensure_ascii=True`, separators `", "` and `": "`), followed by
    `.encode("utf-8")`. A small reader for exactly that shape is defined
    beside it as the reference the round-trip lemmas are stated against. */
module JsonText {
  import opened Common

  /** The value of one dictionary entry. */
  datatype Scalar = Str(text: string) | Int(number: int)

  type Field = (string, Scalar)

  // ---------------------------------------------------------------------
  // Character classes
  // ---------------------------------------------------------------------

  /** Printable ASCII, the only characters `ensure_ascii` output contains. */
  predicate IsPrintable(s: string) {
    forall i :: 0 <= i < |s| ==> ' ' <= s[i] <= '~'
  }

  /** Characters `json.dumps` copies unchanged into a string literal. */
  predicate IsPlain(ch: char) {
    ' ' <= ch <= '~' && ch != '"' && ch != '\\'
  }

  predicate IsDigit(ch: char) {
    '0' <= ch <= '9'
  }

  predicate AllDigits(s: string) {
    forall i :: 0 <= i < |s| ==> IsDigit(s[i])
  }

  lemma PrintableAppend(a: string, b: string)
    requires IsPrintable(a) && IsPrintable(b)
    ensures IsPrintable(a + b)
  {
  }

  // ---------------------------------------------------------------------
  // Hexadecimal escapes `\uXXXX` (lower-case digits, as json.dumps writes)
  // ---------------------------------------------------------------------

  function HexDigit(d: nat): (ch: char)
    requires d < 16
    ensures ' ' <= ch <= '~'
  {
    if d < 10 then ('0' as int + d) as char else ('a' as int + d - 10) as char
  }

  /** The value of a hexadecimal digit of either case. */
  function HexValue(ch: char): (r: Option<nat>)
    ensures r.Some? ==> r.value < 16
  {
    if '0' <= ch <= '9' then Some(ch as int - '0' as int)
    else if 'a' <= ch <= 'f' then Some(ch as int - 'a' as int + 10)
    else if 'A' <= ch <= 'F' then Some(ch as int - 'A' as int + 10)
    else None
  }

  function Hex4(n: nat): (r: string)
    requires n < 0x10000
    ensures |r| == 4 && IsPrintable(r)
  {
    var r1 := n % 0x1000;
    var r2 := r1 % 0x100;
    [HexDigit(n / 0x1000), HexDigit(r1 / 0x100), HexDigit(r2 / 0x10), HexDigit(r2 % 0x10)]
  }

  lemma HexDigitValue(d: nat)
    requires d < 16
    ensures HexValue(HexDigit(d)) == Some(d)
  {
  }

  function ParseHex4(t: string): (r: Option<nat>)
    requires |t| == 4
    ensures r.Some? ==> r.value < 0x10000
  {
    match (HexValue(t[0]), HexValue(t[1]), HexValue(t[2]), HexValue(t[3]))
    case (Some(a), Some(b), Some(c), Some(d)) => Some(a * 0x1000 + b * 0x100 + c * 0x10 + d)
    case _ => None
  }

  lemma HexRoundTrip(n: nat)
    requires n < 0x10000
    ensures ParseHex4(Hex4(n)) == Some(n)
  {
    var r1 := n % 0x1000;
    var r2 := r1 % 0x100;
    HexDigitValue(n / 0x1000);
    HexDigitValue(r1 / 0x100);
    HexDigitValue(r2 / 0x10);
    HexDigitValue(r2 % 0x10);
    assert n == n / 0x1000 * 0x1000 + r1;
    assert r1 == r1 / 0x100 * 0x100 + r2;
    assert r2 == r2 / 0x10 * 0x10 + r2 % 0x10;
  }

  // ---------------------------------------------------------------------
  // String literals
  // ---------------------------------------------------------------------

  const Backspace: char := 8 as char
  const FormFeed: char := 12 as char

  /** How `json.dumps(..., ensure_ascii=True)` writes one character inside a
      string literal: two-character escapes for quote, backslash and the five
      named controls, the character itself when it is printable ASCII,
      `\uXXXX` for the rest of the Basic Multilingual Plane and a UTF-16
      surrogate pair of such escapes above it. */
  function Escape(ch: char): (r: string)
    ensures 0 < |r| <= 12
  {
    if ch == '"' then "\\\""
    else if ch == '\\' then "\\\\"
    else if ch == '\n' then "\\n"
    else if ch == '\r' then "\\r"
    else if ch == '\t' then "\\t"
    else if ch == Backspace then "\\b"
    else if ch == FormFeed then "\\f"
    else if IsPlain(ch) then [ch]
    else if ch as int < 0x10000 then "\\u" + Hex4(ch as int)
    else
      var v := ch as int - 0x10000;
      "\\u" + Hex4(0xD800 + v / 0x400) + "\\u" + Hex4(0xDC00 + v % 0x400)
  }

  /** The inside of a string literal: each character escaped in turn. */
  function Escaped(s: string): (r: string)
    ensures |r| >= |s|
  {
    if |s| == 0 then "" else Escape(s[0]) + Escaped(s[1..])
  }

  function Quote(s: string): (r: string)
    ensures |r| >= 2 && r[0] == '"'
  {
    "\"" + Escaped(s) + "\""
  }

  // ---------------------------------------------------------------------
  // Integers, as Python's `str(int)` writes them
  // ---------------------------------------------------------------------

  function DigitChar(d: nat): char
    requires d < 10
  {
    ('0' as int + d) as char
  }

  function Digits(n: nat): (r: string)
    ensures |r| > 0 && AllDigits(r)
  {
    if n < 10 then [DigitChar(n)] else Digits(n / 10) + [DigitChar(n % 10)]
  }

  function Decimal(n: int): (r: string)
    ensures |r| > 0 && (r[0] == '-' || IsDigit(r[0]))
  {
    if n < 0 then "-" + Digits(-n) else Digits(n)
  }

  // ---------------------------------------------------------------------
  // Flat objects
  // ---------------------------------------------------------------------

  function Render(v: Scalar): (r: string)
    ensures |r| > 0
  {
    match v
    case Str(s) => Quote(s)
    case Int(n) => Decimal(n)
  }

  function Member(f: Field): (r: string)
    ensures |r| > 0
  {
    Quote(f.0) + ": " + Render(f.1)
  }

  /** The entries of a dictionary, separated as `json.dumps` separates them. */
  function Members(fs: seq<Field>): (r: string)
    ensures |fs| > 0 ==> |r| > 0
  {
    if |fs| == 0 then ""
    else if |fs| == 1 then Member(fs[0])
    else Member(fs[0]) + ", " + Members(fs[1..])
  }

  /** `json.dumps(d)` for a dictionary `d` whose entries, in insertion order,
      are `fs`. */
  function Dumps(fs: seq<Field>): (r: string)
    ensures |r| >= 2 && r[0] == '{' && r[|r| - 1] == '}'
  {
    "{" + Members(fs) + "}"
  }

  // ---------------------------------------------------------------------
  // `ensure_ascii`: everything written is printable ASCII
  // ---------------------------------------------------------------------

  lemma EscapePrintable(ch: char)
    ensures IsPrintable(Escape(ch))
  {
  }

  lemma {:induction false} EscapedPrintable(s: string)
    ensures IsPrintable(Escaped(s))
  {
    if |s| > 0 {
      EscapePrintable(s[0]);
      EscapedPrintable(s[1..]);
      PrintableAppend(Escape(s[0]), Escaped(s[1..]));
    }
  }

  lemma RenderPrintable(v: Scalar)
    ensures IsPrintable(Render(v))
  {
    match v
    case Str(s) =>
      EscapedPrintable(s);
      PrintableAppend("\"", Escaped(s));
      PrintableAppend("\"" + Escaped(s), "\"");
    case Int(n) =>
  }

  lemma {:induction false} MembersPrintable(fs: seq<Field>)
    ensures IsPrintable(Members(fs))
  {
    if |fs| > 0 {
      var f := fs[0];
      RenderPrintable(Str(f.0));
      RenderPrintable(f.1);
      PrintableAppend(Quote(f.0), ": ");
      PrintableAppend(Quote(f.0) + ": ", Render(f.1));
      if |fs| > 1 {
        MembersPrintable(fs[1..]);
        PrintableAppend(Member(f), ", ");
        PrintableAppend(Member(f) + ", ", Members(fs[1..]));
      }
    }
  }

  /** With `ensure_ascii` left at its default, `json.dumps` writes only
      printable ASCII, whatever characters the strings hold. */
  lemma DumpsPrintable(fs: seq<Field>)
    ensures IsPrintable(Dumps(fs))
  {
    MembersPrintable(fs);
    PrintableAppend("{", Members(fs));
    PrintableAppend("{" + Members(fs), "}");
  }

  // ---------------------------------------------------------------------
  // `.encode("utf-8")` of ASCII text
  // ---------------------------------------------------------------------

  /** Reads bytes back as one character per byte. */
  function AsciiText(b: Bytes): (s: string)
    ensures |s| == |b|
  {
    seq(|b|, i requires 0 <= i < |b| => b[i] as int as char)
  }

  /** UTF-8 encoding of printable ASCII text: one byte per character, with
      the same code. */
  function AsciiBytes(s: string): (b: Bytes)
    requires IsPrintable(s)
    ensures |b| == |s|
    ensures AsciiText(b) == s
  {
    seq(|s|, i requires 0 <= i < |s| => s[i] as int as byte)
  }

  /** The bytes of `json.dumps({"error": message}).encode("utf-8")`. */
  function ErrorDocument(message: string): (b: Bytes)
    ensures |b| > 0
  {
    DumpsPrintable([("error", Str(message))]);
    AsciiBytes(Dumps([("error", Str(message))]))
  }

  /** The error document is the ASCII encoding of the `json.dumps` text. */
  lemma ErrorDocumentText(message: string)
    ensures AsciiText(ErrorDocument(message)) == Dumps([("error", Str(message))])
  {
    DumpsPrintable([("error", Str(message))]);
  }

  // ---------------------------------------------------------------------
  // Reader: the reference inverse of the writer above
  // ---------------------------------------------------------------------

  function ShortEscape(e: char): Option<char> {
    if e == '"' then Some('"')
    else if e == '\\' then Some('\\')
    else if e == '/' then Some('/')
    else if e == 'b' then Some(Backspace)
    else if e == 'f' then Some(FormFeed)
    else if e == 'n' then Some('\n')
    else if e == 'r' then Some('\r')
    else if e == 't' then Some('\t')
    else None
  }

  /** The character a UTF-16 surrogate pair stands for. */
  function FromSurrogates(hi: nat, lo: nat): char
    requires 0xD800 <= hi < 0xDC00 && 0xDC00 <= lo < 0xE000
  {
    (0x10000 + (hi - 0xD800) * 0x400 + (lo - 0xDC00)) as char
  }

  function Cons(ch: char, o: Option<(string, string)>): (r: Option<(string, string)>)
    ensures r.Some? <==> o.Some?
    ensures r.Some? ==> r.value.0 == [ch] + o.value.0 && r.value.1 == o.value.1
  {
    match o
    case None => None
    case Some((s, rest)) => Some(([ch] + s, rest))
  }

  /** Reads the inside of a string literal up to and including its closing
      quote; yields the characters and the text after the quote. */
  function ReadChars(t: string): (r: Option<(string, string)>)
    ensures r.Some? ==> |r.value.1| < |t|
    decreases |t|
  {
    if |t| == 0 then None
    else if t[0] == '"' then Some(("", t[1..]))
    else if t[0] == '\\' then
      if |t| < 2 then None
      else if t[1] != 'u' then
        match ShortEscape(t[1])
        case None => None
        case Some(ch) => Cons(ch, ReadChars(t[2..]))
      else if |t| < 6 then None
      else
        match ParseHex4(t[2..6])
        case None => None
        case Some(hi) =>
          if hi < 0xD800 || 0xE000 <= hi then Cons(hi as char, ReadChars(t[6..]))
          else if 0xDC00 <= hi then None
          else if |t| < 12 || t[6] != '\\' || t[7] != 'u' then None
          else
            match ParseHex4(t[8..12])
            case None => None
            case Some(lo) =>
              if 0xDC00 <= lo < 0xE000 then Cons(FromSurrogates(hi, lo), ReadChars(t[12..]))
              else None
    else if IsPlain(t[0]) then Cons(t[0], ReadChars(t[1..]))
    else None
  }

  function ReadString(t: string): (r: Option<(string, string)>)
    ensures r.Some? ==> |r.value.1| < |t|
  {
    if |t| > 0 && t[0] == '"' then ReadChars(t[1..]) else None
  }

  /** Number of leading decimal digits. */
  function Span(t: string): (k: nat)
    ensures k <= |t|
    ensures AllDigits(t[..k])
    ensures k < |t| ==> !IsDigit(t[k])
  {
    if |t| > 0 && IsDigit(t[0]) then
      var k := 1 + Span(t[1..]);
      assert t[..k] == [t[0]] + t[1..][..k - 1];
      k
    else 0
  }

  /** The number a string of decimal digits denotes. */
  function DigitsValue(ds: string): nat
    requires AllDigits(ds)
  {
    if |ds| == 0 then 0
    else DigitsValue(ds[..|ds| - 1]) * 10 + (ds[|ds| - 1] as int - '0' as int)
  }

  function ReadNat(t: string): (r: Option<(nat, string)>)
    ensures r.Some? ==> |r.value.1| < |t|
  {
    var k := Span(t);
    if k == 0 then None else Some((DigitsValue(t[..k]), t[k..]))
  }

  function ReadInt(t: string): (r: Option<(int, string)>)
    ensures r.Some? ==> |r.value.1| < |t|
  {
    if |t| > 0 && t[0] == '-' then
      match ReadNat(t[1..])
      case None => None
      case Some((n, rest)) => Some((-(n as int), rest))
    else
      match ReadNat(t)
      case None => None
      case Some((n, rest)) => Some((n as int, rest))
  }

  function ReadScalar(t: string): (r: Option<(Scalar, string)>)
    ensures r.Some? ==> |r.value.1| < |t|
  {
    if |t| > 0 && t[0] == '"' then
      match ReadString(t)
      case None => None
      case Some((s, rest)) => Some((Str(s), rest))
    else
      match ReadInt(t)
      case None => None
      case Some((n, rest)) => Some((Int(n), rest))
  }

  /** Reads `key: value` entries separated by `", "` up to and including
      the closing brace, which must end the text. */
  function ReadMembers(t: string): Option<seq<Field>>
    decreases |t|
  {
    match ReadString(t)
    case None => None
    case Some((k, r1)) =>
      if |r1| < 2 || r1[..2] != ": " then None
      else
        match ReadScalar(r1[2..])
        case None => None
        case Some((v, r2)) =>
          if r2 == "}" then Some([(k, v)])
          else if |r2| < 2 || r2[..2] != ", " then None
          else
            match ReadMembers(r2[2..])
            case None => None
            case Some(more) => Some([(k, v)] + more)
  }

  /** Reads a whole flat object. */
  function ReadObject(t: string): Option<seq<Field>> {
    if t == "{}" then Some([])
    else if |t| >= 2 && t[0] == '{' then ReadMembers(t[1..])
    else None
  }
}
