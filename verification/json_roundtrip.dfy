/** Every document the proxy writes with `json.dumps` reads back as the
    dictionary it was written from: the escapes of string literals, the
    decimal form of integers and the separators between entries lose
    nothing. */
module JsonRoundTrip {
  import opened Common
  import opened JsonText

  /** A two-character escape reads back as the character it stands for. */
  lemma NamedEscapeReadsBack(ch: char, rest: string)
    requires ch == '"' || ch == '\\' || ch == '\n' || ch == '\r' || ch == '\t' || ch == Backspace || ch == FormFeed
    ensures ReadChars(Escape(ch) + rest) == Cons(ch, ReadChars(rest))
  {
    var e := Escape(ch);
    var t := e + rest;
    assert |e| == 2 && e[0] == '\\' && e[1] != 'u' && ShortEscape(e[1]) == Some(ch);
    assert t[0] == '\\' && t[1] == e[1];
    assert t[2..] == rest;
  }

  lemma PlainReadsBack(ch: char, rest: string)
    requires IsPlain(ch)
    ensures ReadChars(Escape(ch) + rest) == Cons(ch, ReadChars(rest))
  {
    var t := Escape(ch) + rest;
    assert Escape(ch) == [ch];
    assert t[0] == ch;
    assert t[1..] == rest;
  }

  /** A `\uXXXX` escape of a character of the Basic Multilingual Plane. */
  lemma UnicodeEscapeReadsBack(ch: char, rest: string)
    requires !IsPlain(ch) && ch != '"' && ch != '\\'
    requires ch != '\n' && ch != '\r' && ch != '\t' && ch != Backspace && ch != FormFeed
    requires ch as int < 0x10000
    ensures ReadChars(Escape(ch) + rest) == Cons(ch, ReadChars(rest))
  {
    var h := Hex4(ch as int);
    var t := Escape(ch) + rest;
    assert Escape(ch) == "\\u" + h;
    assert t == "\\u" + h + rest;
    HexRoundTrip(ch as int);
    assert t[0] == '\\' && t[1] == 'u';
    assert t[2..6] == h;
    assert t[6..] == rest;
    assert (ch as int) as char == ch;
  }

  /** A character above the Basic Multilingual Plane splits into a high and
      a low surrogate that `FromSurrogates` joins back. */
  lemma SurrogatesJoin(ch: char)
    requires ch as int >= 0x10000
    ensures var v := ch as int - 0x10000;
      var hi, lo := 0xD800 + v / 0x400, 0xDC00 + v % 0x400;
      && 0xD800 <= hi < 0xDC00 && 0xDC00 <= lo < 0xE000
      && FromSurrogates(hi, lo) == ch
  {
  }

  /** Two `\uXXXX` escapes of a high and a low surrogate read back as the
      character they encode. */
  lemma PairReadsBack(hi: nat, lo: nat, rest: string)
    requires 0xD800 <= hi < 0xDC00 && 0xDC00 <= lo < 0xE000
    ensures ReadChars("\\u" + Hex4(hi) + "\\u" + Hex4(lo) + rest) == Cons(FromSurrogates(hi, lo), ReadChars(rest))
  {
    var t := "\\u" + Hex4(hi) + "\\u" + Hex4(lo) + rest;
    HexRoundTrip(hi);
    HexRoundTrip(lo);
    assert t[0] == '\\' && t[1] == 'u';
    assert t[2..6] == Hex4(hi);
    assert t[6] == '\\' && t[7] == 'u';
    assert t[8..12] == Hex4(lo);
    assert t[12..] == rest;
  }

  /** A surrogate pair of `\uXXXX` escapes of a character above the Basic
      Multilingual Plane. */
  lemma SurrogatePairReadsBack(ch: char, rest: string)
    requires ch as int >= 0x10000
    ensures ReadChars(Escape(ch) + rest) == Cons(ch, ReadChars(rest))
  {
    var v := ch as int - 0x10000;
    var hi, lo := 0xD800 + v / 0x400, 0xDC00 + v % 0x400;
    SurrogatesJoin(ch);
    assert Escape(ch) + rest == "\\u" + Hex4(hi) + "\\u" + Hex4(lo) + rest;
    PairReadsBack(hi, lo, rest);
  }

  /** One escaped character, followed by anything, reads back as that
      character followed by whatever the rest reads as. */
  lemma EscapeReadsBack(ch: char, rest: string)
    ensures ReadChars(Escape(ch) + rest) == Cons(ch, ReadChars(rest))
  {
    if ch == '"' || ch == '\\' || ch == '\n' || ch == '\r' || ch == '\t' || ch == Backspace || ch == FormFeed {
      NamedEscapeReadsBack(ch, rest);
    } else if IsPlain(ch) {
      PlainReadsBack(ch, rest);
    } else if ch as int < 0x10000 {
      UnicodeEscapeReadsBack(ch, rest);
    } else {
      SurrogatePairReadsBack(ch, rest);
    }
  }

  /** The inside of a quoted string, its closing quote and anything after it
      read back as the original characters and that remainder. */
  lemma {:induction false} EscapedReadsBack(s: string, rest: string)
    ensures ReadChars(Escaped(s) + "\"" + rest) == Some((s, rest))
  {
    if |s| == 0 {
      assert Escaped(s) + "\"" + rest == "\"" + rest;
      assert ("\"" + rest)[1..] == rest;
    } else {
      var tail := Escaped(s[1..]) + "\"" + rest;
      assert Escaped(s) + "\"" + rest == Escape(s[0]) + tail;
      EscapeReadsBack(s[0], tail);
      EscapedReadsBack(s[1..], rest);
      assert [s[0]] + s[1..] == s;
    }
  }

  lemma QuoteReadsBack(s: string, rest: string)
    ensures ReadString(Quote(s) + rest) == Some((s, rest))
  {
    assert (Quote(s) + rest)[1..] == Escaped(s) + "\"" + rest;
    EscapedReadsBack(s, rest);
  }

  lemma {:induction false} DigitsValueOf(n: nat)
    ensures DigitsValue(Digits(n)) == n
  {
    if n >= 10 {
      var ds := Digits(n);
      assert ds[..|ds| - 1] == Digits(n / 10);
      DigitsValueOf(n / 10);
    }
  }

  /** A run of digits stops exactly where a non-digit starts. */
  lemma {:induction false} SpanOfDigits(ds: string, rest: string)
    requires AllDigits(ds)
    requires |rest| == 0 || !IsDigit(rest[0])
    ensures Span(ds + rest) == |ds|
  {
    if |ds| > 0 {
      assert (ds + rest)[1..] == ds[1..] + rest;
      SpanOfDigits(ds[1..], rest);
    } else {
      assert ds + rest == rest;
    }
  }

  lemma DigitsReadBack(n: nat, rest: string)
    requires |rest| == 0 || !IsDigit(rest[0])
    ensures ReadNat(Digits(n) + rest) == Some((n, rest))
  {
    var ds := Digits(n);
    SpanOfDigits(ds, rest);
    assert (ds + rest)[..|ds|] == ds;
    assert (ds + rest)[|ds|..] == rest;
    DigitsValueOf(n);
  }

  lemma ReadNegative(t: string, m: nat, rest: string)
    requires |t| > 0 && t[0] == '-'
    requires ReadNat(t[1..]) == Some((m, rest))
    ensures ReadInt(t) == Some((-(m as int), rest))
  {
  }

  lemma ReadNonNegative(t: string, m: nat, rest: string)
    requires |t| > 0 && t[0] != '-'
    requires ReadNat(t) == Some((m, rest))
    ensures ReadInt(t) == Some((m as int, rest))
  {
  }

  lemma NegativeReadsBack(n: int, rest: string)
    requires n < 0
    requires |rest| == 0 || !IsDigit(rest[0])
    ensures ReadInt(Decimal(n) + rest) == Some((n, rest))
  {
    assert Decimal(n) == "-" + Digits(-n);
    assert (Decimal(n) + rest)[1..] == Digits(-n) + rest;
    DigitsReadBack(-n, rest);
    ReadNegative(Decimal(n) + rest, -n, rest);
  }

  lemma NonNegativeReadsBack(n: int, rest: string)
    requires n >= 0
    requires |rest| == 0 || !IsDigit(rest[0])
    ensures ReadInt(Decimal(n) + rest) == Some((n, rest))
  {
    assert Decimal(n) == Digits(n);
    assert IsDigit((Digits(n) + rest)[0]);
    DigitsReadBack(n, rest);
    ReadNonNegative(Decimal(n) + rest, n, rest);
  }

  /** `str(n)` followed by a non-digit reads back as `n`. */
  lemma DecimalReadsBack(n: int, rest: string)
    requires |rest| == 0 || !IsDigit(rest[0])
    ensures ReadInt(Decimal(n) + rest) == Some((n, rest))
  {
    if n < 0 {
      NegativeReadsBack(n, rest);
    } else {
      NonNegativeReadsBack(n, rest);
    }
  }

  /** A rendered value followed by a separator or the closing brace reads
      back as that value. */
  lemma RenderReadsBack(v: Scalar, rest: string)
    requires |rest| > 0 && (rest[0] == ',' || rest[0] == '}')
    ensures ReadScalar(Render(v) + rest) == Some((v, rest))
  {
    match v
    case Str(s) =>
      QuoteReadsBack(s, rest);
    case Int(n) =>
      DecimalReadsBack(n, rest);
  }

  lemma MemberReadsBack(f: Field, rest: string)
    requires |rest| > 0 && (rest[0] == ',' || rest[0] == '}')
    ensures ReadString(Member(f) + rest) == Some((f.0, ": " + Render(f.1) + rest))
    ensures ReadScalar(Render(f.1) + rest) == Some((f.1, rest))
  {
    assert Member(f) + rest == Quote(f.0) + (": " + Render(f.1) + rest);
    QuoteReadsBack(f.0, ": " + Render(f.1) + rest);
    RenderReadsBack(f.1, rest);
  }

  lemma ReadLastMember(t: string, k: string, v: Scalar, r1: string)
    requires ReadString(t) == Some((k, r1))
    requires |r1| >= 2 && r1[..2] == ": "
    requires ReadScalar(r1[2..]) == Some((v, "}"))
    ensures ReadMembers(t) == Some([(k, v)])
  {
  }

  lemma ReadNextMember(t: string, k: string, v: Scalar, r1: string, r2: string, more: seq<Field>)
    requires ReadString(t) == Some((k, r1))
    requires |r1| >= 2 && r1[..2] == ": "
    requires ReadScalar(r1[2..]) == Some((v, r2))
    requires |r2| >= 2 && r2[..2] == ", " && ReadMembers(r2[2..]) == Some(more)
    ensures ReadMembers(t) == Some([(k, v)] + more)
  {
    assert r2 != "}";
  }

  /** One `key: value` entry followed by a separator or the closing brace:
      the three steps the reader takes over it. */
  lemma EntryReadsBack(f: Field, after: string)
    requires |after| > 0 && (after[0] == ',' || after[0] == '}')
    ensures var r1 := ": " + Render(f.1) + after;
      && ReadString(Member(f) + after) == Some((f.0, r1))
      && |r1| >= 2 && r1[..2] == ": "
      && ReadScalar(r1[2..]) == Some((f.1, after))
  {
    MemberReadsBack(f, after);
    Associate3(": ", Render(f.1), after);
    SeparatorSplits(": ", Render(f.1) + after);
  }

  lemma SingleMemberReadsBack(f: Field)
    ensures ReadMembers(Member(f) + "}") == Some([f])
  {
    EntryReadsBack(f, "}");
    ReadLastMember(Member(f) + "}", f.0, f.1, ": " + Render(f.1) + "}");
  }

  lemma MembersCons(f: Field, more: seq<Field>)
    requires |more| > 0
    ensures Members([f] + more) + "}" == Member(f) + (", " + Members(more) + "}")
  {
    var fs := [f] + more;
    assert fs[0] == f && fs[1..] == more;
    assert Members(fs) == Member(f) + ", " + Members(more);
    Associate(Member(f), ", ", Members(more), "}");
  }

  lemma Associate3(a: string, b: string, c: string)
    ensures a + (b + c) == a + b + c
  {
  }

  lemma Associate(a: string, b: string, c: string, d: string)
    ensures a + b + c + d == a + (b + c + d)
  {
  }

  lemma SeparatorSplits(sep: string, x: string)
    requires |sep| == 2
    ensures (sep + x)[..2] == sep && (sep + x)[2..] == x
  {
  }

  lemma OpeningSplits(x: string)
    ensures ("{" + x)[1..] == x
  {
  }

  lemma ConsMemberReadsBack(f: Field, more: seq<Field>)
    requires |more| > 0
    requires ReadMembers(Members(more) + "}") == Some(more)
    ensures ReadMembers(Member(f) + (", " + Members(more) + "}")) == Some([f] + more)
  {
    var rest := Members(more) + "}";
    var after := ", " + rest;
    SeparatorSplits(", ", rest);
    Associate3(", ", Members(more), "}");
    EntryReadsBack(f, after);
    ReadNextMember(Member(f) + after, f.0, f.1, ": " + Render(f.1) + after, after, more);
  }

  /** The entries of a non-empty dictionary and its closing brace read back
      as those entries, in order. */
  lemma {:induction false} MembersReadBack(fs: seq<Field>)
    requires |fs| > 0
    ensures ReadMembers(Members(fs) + "}") == Some(fs)
  {
    if |fs| == 1 {
      SingleMemberReadsBack(fs[0]);
      assert [fs[0]] == fs;
    } else {
      MembersReadBack(fs[1..]);
      ConsMemberReadsBack(fs[0], fs[1..]);
      assert [fs[0]] + fs[1..] == fs;
      MembersCons(fs[0], fs[1..]);
    }
  }

  lemma ReadNonEmptyObject(t: string)
    requires |t| > 2 && t[0] == '{'
    ensures ReadObject(t) == ReadMembers(t[1..])
  {
  }

  /** `json.dumps` of a flat dictionary reads back as that dictionary. */
  lemma DumpsReadsBack(fs: seq<Field>)
    ensures ReadObject(Dumps(fs)) == Some(fs)
  {
    if |fs| == 0 {
      assert Dumps(fs) == "{}";
    } else {
      Associate3("{", Members(fs), "}");
      OpeningSplits(Members(fs) + "}");
      MembersReadBack(fs);
      ReadNonEmptyObject(Dumps(fs));
    }
  }

  /** The bytes of an `{"error": message}` document read back as exactly
      that one-entry dictionary: the message reaches the client intact. */
  lemma ErrorDocumentReadsBack(message: string)
    ensures ReadObject(AsciiText(ErrorDocument(message))) == Some([("error", Str(message))])
  {
    ErrorDocumentText(message);
    DumpsReadsBack([("error", Str(message))]);
  }
}
