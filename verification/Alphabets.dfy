/** Which characters the terminals accept, symbol by symbol, against the tables of section 6.5 of RDF 1.1 Turtle. */
module Alphabets {
  import opened Terms
  import opened Labels
  import opened Peg
  import opened PegLaws
  import opened Names
  import opened Numbers
  import opened Tokens
  import opened Quotes

  type Range = (int, int)

  const BASE_TABLE: seq<Range> :=
    [(0x41, 0x5A), (0x61, 0x7A), (0xC0, 0xD6), (0xD8, 0xF6), (0xF8, 0x2FF), (0x370, 0x37D), (0x37F, 0x1FFF),
     (0x200C, 0x200D), (0x2070, 0x218F), (0x2C00, 0x2FEF), (0x3001, 0xD7FF), (0xF900, 0xFDCF), (0xFDF0, 0xFFFD),
     (0x10000, 0xEFFFF)]
  const OTHER_TABLE: seq<Range> := [(0x2D, 0x2D), (0x30, 0x39), (0xB7, 0xB7), (0x300, 0x36F), (0x203F, 0x2040)]
  const DIGIT_TABLE := "0123456789"
  const HEX_TABLE := "0123456789abcdefABCDEF"
  const LETTER_TABLE: seq<Range> := [(0x41, 0x5A), (0x61, 0x7A)]

  predicate InTable(c: char, table: seq<Range>) {
    exists i :: 0 <= i < |table| && table[i].0 <= c as int <= table[i].1
  }

  predicate IsBase(c: char) { InTable(c, BASE_TABLE) }

  predicate IsFirst(c: char) { IsBase(c) || c == '_' }

  predicate IsLater(c: char) { IsFirst(c) || InTable(c, OTHER_TABLE) }

  lemma BaseIsTable(c: char)
    ensures IsPnCharsBase(c) <==> IsBase(c)
  {
    if IsPnCharsBase(c) {
      var t := BASE_TABLE;
      assert t[0] == (0x41, 0x5A) && t[1] == (0x61, 0x7A) && t[2] == (0xC0, 0xD6) && t[3] == (0xD8, 0xF6);
      assert t[4] == (0xF8, 0x2FF) && t[5] == (0x370, 0x37D) && t[6] == (0x37F, 0x1FFF) && t[7] == (0x200C, 0x200D);
      assert t[8] == (0x2070, 0x218F) && t[9] == (0x2C00, 0x2FEF) && t[10] == (0x3001, 0xD7FF);
      assert t[11] == (0xF900, 0xFDCF) && t[12] == (0xFDF0, 0xFFFD) && t[13] == (0x10000, 0xEFFFF);
    }
  }

  lemma LaterIsTable(c: char)
    ensures IsPnCharsU(c) <==> IsFirst(c)
    ensures IsPnChars(c) <==> IsLater(c)
  {
    BaseIsTable(c);
    if IsPnChars(c) {
      var t := OTHER_TABLE;
      assert t[0] == (0x2D, 0x2D) && t[1] == (0x30, 0x39) && t[2] == (0xB7, 0xB7) && t[3] == (0x300, 0x36F);
      assert t[4] == (0x203F, 0x2040);
    }
  }

  lemma DigitIsTable(c: char)
    ensures IsDigit(c) <==> c in DIGIT_TABLE
  {
  }

  lemma HexIsTable(c: char)
    ensures IsHex(c) <==> c in HEX_TABLE
  {
  }

  lemma LetterIsTable(c: char)
    ensures IsAlpha(c) <==> InTable(c, LETTER_TABLE)
  {
    if IsAlpha(c) {
      assert LETTER_TABLE[0] == (0x41, 0x5A) && LETTER_TABLE[1] == (0x61, 0x7A);
    }
  }

  // ---- Productions on texts of one and two symbols.

  lemma CatOfOne(left: Regex, right: Regex, c: char)
    ensures Matches(Cat(left, right), [c])
       <==> (Matches(left, []) && Matches(right, [c])) || (Matches(left, [c]) && Matches(right, []))
  {
    var s := [c];
    assert s[..0] == [] && s[0..] == s && s[..1] == s && s[1..] == [];
    if Matches(left, []) && Matches(right, [c]) {
      assert CatSplit(left, right, s, 0);
    }
    if Matches(left, [c]) && Matches(right, []) {
      assert CatSplit(left, right, s, 1);
    }
  }

  lemma CatOfTwo(left: Regex, right: Regex, a: char, b: char)
    ensures Matches(Cat(left, right), [a, b])
       <==> || (Matches(left, []) && Matches(right, [a, b])) || (Matches(left, [a]) && Matches(right, [b]))
            || (Matches(left, [a, b]) && Matches(right, []))
  {
    var s := [a, b];
    assert s[..0] == [] && s[0..] == s && s[..1] == [a] && s[1..] == [b] && s[..2] == s && s[2..] == [];
    if Matches(left, []) && Matches(right, [a, b]) {
      assert CatSplit(left, right, s, 0);
    }
    if Matches(left, [a]) && Matches(right, [b]) {
      assert CatSplit(left, right, s, 1);
    }
    if Matches(left, [a, b]) && Matches(right, []) {
      assert CatSplit(left, right, s, 2);
    }
  }

  lemma CatOfNone(left: Regex, right: Regex)
    ensures Matches(Cat(left, right), []) <==> Matches(left, []) && Matches(right, [])
  {
    var s: string := [];
    assert s[..0] == [] && s[0..] == [];
    if Matches(left, []) && Matches(right, []) {
      assert CatSplit(left, right, s, 0);
    }
  }

  lemma RepOfOne(part: Regex, c: char)
    ensures Matches(Rep(part), [c]) <==> Matches(part, [c])
  {
    var s := [c];
    assert s[..1] == s && s[1..] == [];
    if Matches(part, [c]) {
      assert RepSplit(part, s, 1);
    }
  }

  // ---- Names.

  /** What may follow the first character of a name, when only one character does. */
  lemma TailOfOne(body: Regex, unit: Regex, c: char)
    requires !Matches(unit, [])
    ensures Matches(Maybe(Cat(Rep(body), unit)), [c]) <==> Matches(unit, [c])
    ensures Matches(Maybe(Cat(Rep(body), unit)), [])
  {
    CatOfOne(Rep(body), unit, c);
  }

  /** The characters of prefixes, by their place. */
  lemma PrefixAlphabet(a: char, b: char)
    ensures Matches(PN_PREFIX_R, [a]) <==> IsBase(a)
    ensures Matches(PN_PREFIX_R, [a, b]) <==> IsBase(a) && IsLater(b)
  {
    var tail := Maybe(Cat(Rep(NAME_BODY_R), PN_CHARS_R));
    BaseIsTable(a);
    LaterIsTable(b);
    TailOfOne(NAME_BODY_R, PN_CHARS_R, b);
    CatOfOne(Letter(IsPnCharsBase), tail, a);
    CatOfTwo(Letter(IsPnCharsBase), tail, a, b);
  }

  lemma PlxOf(a: char, b: char)
    ensures !Matches(PLX_R, []) && !Matches(PLX_R, [a])
    ensures Matches(PLX_R, [a, b]) <==> a == '\\' && b in "_~.-!$&'()*+,;=/?#@%"
  {
    var hexes := Cat(Letter(IsHex), Letter(IsHex));
    CatOfNone(Letter(IsHex), Letter(IsHex));
    CatOfOne(Letter(IsHex), Letter(IsHex), b);
    CatOfNone(Char('%'), hexes);
    CatOfOne(Char('%'), hexes, a);
    CatOfTwo(Char('%'), hexes, a, b);
    CatOfNone(Char('\\'), Letter(IsLocalEscape));
    CatOfOne(Char('\\'), Letter(IsLocalEscape), a);
    CatOfTwo(Char('\\'), Letter(IsLocalEscape), a, b);
  }

  lemma LocalHeadOf(a: char, b: char)
    ensures Matches(LOCAL_HEAD_R, [a]) <==> IsFirst(a) || a == ':' || a in DIGIT_TABLE
    ensures Matches(LOCAL_HEAD_R, [a, b]) <==> a == '\\' && b in "_~.-!$&'()*+,;=/?#@%"
    ensures !Matches(LOCAL_HEAD_R, [])
  {
    PlxOf(a, b);
    LaterIsTable(a);
    DigitIsTable(a);
    HeadElim([a]);
    HeadElim([a, b]);
    HeadElim([]);
  }

  lemma HeadElim(t: string)
    ensures Matches(LOCAL_HEAD_R, t)
       <==> Matches(Letter(IsPnCharsU), t) || Matches(Char(':'), t) || Matches(Letter(IsDigit), t) || Matches(PLX_R, t)
  {
    AltElim(Letter(IsPnCharsU), Alt(Char(':'), Alt(Letter(IsDigit), PLX_R)), t);
    AltElim(Char(':'), Alt(Letter(IsDigit), PLX_R), t);
    AltElim(Letter(IsDigit), PLX_R, t);
  }

  lemma UnitElim(t: string)
    ensures Matches(LOCAL_UNIT_R, t) <==> Matches(PN_CHARS_R, t) || Matches(Char(':'), t) || Matches(PLX_R, t)
  {
    AltElim(PN_CHARS_R, Alt(Char(':'), PLX_R), t);
    AltElim(Char(':'), PLX_R, t);
  }

  lemma LocalUnitOf(b: char)
    ensures Matches(LOCAL_UNIT_R, [b]) <==> IsLater(b) || b == ':'
    ensures !Matches(LOCAL_UNIT_R, [])
  {
    PlxOf(b, b);
    LaterIsTable(b);
    UnitElim([b]);
    UnitElim([]);
  }

  /** The characters of local names, by their place, and those that a backslash may stand before. */
  lemma LocalAlphabet(a: char, b: char)
    ensures Matches(PN_LOCAL_R, [a]) <==> IsFirst(a) || a == ':' || a in DIGIT_TABLE
    ensures Matches(PN_LOCAL_R, [a, b])
       <==> || ((IsFirst(a) || a == ':' || a in DIGIT_TABLE) && (IsLater(b) || b == ':'))
            || (a == '\\' && b in "_~.-!$&'()*+,;=/?#@%")
  {
    var tail := Maybe(Cat(Rep(LOCAL_BODY_R), LOCAL_UNIT_R));
    LocalHeadOf(a, b);
    LocalUnitOf(a);
    LocalUnitOf(b);
    TailOfOne(LOCAL_BODY_R, LOCAL_UNIT_R, a);
    TailOfOne(LOCAL_BODY_R, LOCAL_UNIT_R, b);
    CatOfOne(LOCAL_HEAD_R, tail, a);
    CatOfTwo(LOCAL_HEAD_R, tail, a, b);
  }

  lemma CharThen(x: char, r: Regex, t: string)
    ensures Matches(Cat(Char(x), r), [x] + t) <==> Matches(r, t)
  {
    if Matches(r, t) {
      CatIntro(Char(x), r, [x], t);
    }
    if Matches(Cat(Char(x), r), [x] + t) {
      var k := CatElim(Char(x), r, [x] + t);
      assert k == 1 && ([x] + t)[1..] == t;
    }
  }

  /** The characters of blank-node labels, by their place. */
  lemma LabelAlphabet(a: char, b: char)
    ensures LegalLabel([a]) <==> IsFirst(a) || a in DIGIT_TABLE
    ensures LegalLabel([a, b]) <==> (IsFirst(a) || a in DIGIT_TABLE) && IsLater(b)
  {
    var tail := Maybe(Cat(Rep(NAME_BODY_R), PN_CHARS_R));
    LaterIsTable(a);
    LaterIsTable(b);
    DigitIsTable(a);
    AltElim(Letter(IsPnCharsU), Letter(IsDigit), []);
    AltElim(Letter(IsPnCharsU), Letter(IsDigit), [a]);
    AltElim(Letter(IsPnCharsU), Letter(IsDigit), [a, b]);
    TailOfOne(NAME_BODY_R, PN_CHARS_R, b);
    CatOfOne(LABEL_HEAD_R, tail, a);
    CatOfTwo(LABEL_HEAD_R, tail, a, b);
    LabelText([a], Cat(LABEL_HEAD_R, tail));
    LabelText([a, b], Cat(LABEL_HEAD_R, tail));
  }

  lemma LabelText(name: string, r: Regex)
    ensures Matches(Cat(Char('_'), Cat(Char(':'), r)), "_:" + name) <==> Matches(r, name)
  {
    assert "_:" + name == ['_'] + ([':'] + name);
    CharThen(':', r, name);
    CharThen('_', Cat(Char(':'), r), [':'] + name);
  }

  // ---- Values, IRIs and language tags.

  lemma BackslashOnly(a: char)
    ensures !Matches(ECHAR_R, [a]) && !Matches(UCHAR_R, [a])
  {
    CatOfOne(Char('\\'), Letter(IsEscaped), a);
    CatOfOne(Char('u'), HEX4_R, a);
    CatOfNone(Char('u'), HEX4_R);
    CatOfNone(Char('U'), Cat(HEX4_R, HEX4_R));
    CatOfOne(Char('\\'), Cat(Char('u'), HEX4_R), a);
    CatOfOne(Char('\\'), Cat(Char('U'), Cat(HEX4_R, HEX4_R)), a);
  }

  /** The characters of quoted values and of IRIs. */
  lemma TextAlphabet(a: char)
    ensures LegalValue([a]) <==> a !in "\"\\\r\n"
    ensures LegalIri([a]) <==> a as int > 0x20 && a !in "<>\"{}|^`\\"
  {
    BackslashOnly(a);
    RepOfOne(STRING_PART_R, a);
    RepOfOne(IRI_PART_R, a);
  }

  /** The letters that a backslash may stand before in a value. */
  lemma EscapeAlphabet(c: char, w: string)
    ensures Match(ECHAR, ['\\', c] + w) == (if c in "tbnrf\"'\\" then Some(2) else None)
  {
    assert ['\\', c] + w == ['\\'] + ([c] + w);
    OneThen('\\', Class(IsEscaped), [c] + w);
  }

  predicate HexDigits(text: string) {
    forall i :: 0 <= i < |text| ==> text[i] in HEX_TABLE
  }

  /** n hexadecimal digits are read as such. */
  ghost predicate ReadsHexes(p: Peg, n: nat, s: string) {
    Match(p, s) == if |s| >= n && HexDigits(s[..n]) then Some(n) else None
  }

  lemma HexReads(s: string)
    ensures ReadsHexes(HEX, 1, s)
  {
    if s != [] {
      HexIsTable(s[0]);
      assert s[..1][0] == s[0];
    }
  }

  lemma ThenHexes(p: Peg, q: Peg, n: nat, k: nat, s: string)
    requires ReadsHexes(p, n, s) && (|s| >= n ==> ReadsHexes(q, k, s[n..]))
    ensures ReadsHexes(Then(p, q), n + k, s)
  {
    if |s| >= n && HexDigits(s[..n]) {
      ThenFrom(p, q, s, n);
      if |s| >= n + k {
        JoinHexes(s, n, k);
      }
    } else if |s| >= n + k {
      JoinHexes(s, n, k);
    }
  }

  lemma JoinHexes(s: string, n: nat, k: nat)
    requires n + k <= |s|
    ensures HexDigits(s[..n + k]) <==> HexDigits(s[..n]) && HexDigits(s[n..][..k])
  {
    assert s[..n + k] == s[..n] + s[n..][..k];
    assert s[..n] == s[..n + k][..n] && s[n..][..k] == s[..n + k][n..];
  }

  lemma HexesRead(s: string)
    ensures ReadsHexes(Then(HEX, HEX), 2, s)
  {
    HexReads(s);
    if s != [] {
      HexReads(s[1..]);
    }
    ThenHexes(HEX, HEX, 1, 1, s);
  }

  lemma Hex3Reads(s: string)
    ensures ReadsHexes(Then(HEX, Then(HEX, HEX)), 3, s)
  {
    HexReads(s);
    if s != [] {
      HexesRead(s[1..]);
    }
    ThenHexes(HEX, Then(HEX, HEX), 1, 2, s);
  }

  lemma Hex4Reads(s: string)
    ensures ReadsHexes(HEX4, 4, s)
  {
    HexReads(s);
    if s != [] {
      Hex3Reads(s[1..]);
    }
    ThenHexes(HEX, Then(HEX, Then(HEX, HEX)), 1, 3, s);
  }

  lemma EightHexes(s: string)
    ensures ReadsHexes(Then(HEX4, HEX4), 8, s)
  {
    Hex4Reads(s);
    if |s| >= 4 {
      Hex4Reads(s[4..]);
    }
    ThenHexes(HEX4, HEX4, 4, 4, s);
  }

  /** Numeric escapes have four or eight hexadecimal digits. */
  lemma UnicodeEscapes(h: string)
    ensures Match(UCHAR, "\\u" + h) == if |h| >= 4 && HexDigits(h[..4]) then Some(6) else None
    ensures Match(UCHAR, "\\U" + h) == if |h| >= 8 && HexDigits(h[..8]) then Some(10) else None
  {
    ShortEscape(h);
    LongEscape(h);
  }

  lemma ShortEscape(h: string)
    ensures Match(UCHAR, "\\u" + h) == if |h| >= 4 && HexDigits(h[..4]) then Some(6) else None
  {
    Hex4Reads(h);
    EscapeFrom('u', HEX4, h);
    ElseFrom(SHORT_UCHAR, LONG_UCHAR, "\\u" + h);
    SecondChar("\\u" + h);
  }

  /** A backslash, a letter and what the letter announces. */
  lemma EscapeFrom(letter: char, p: Peg, h: string)
    ensures Match(Then(One('\\'), Then(One(letter), p)), ['\\', letter] + h) == Shift(2, Match(p, h))
  {
    assert ['\\', letter] + h == ['\\'] + ([letter] + h);
    OneThen(letter, p, h);
    OneThen('\\', Then(One(letter), p), [letter] + h);
  }

  lemma LongEscape(h: string)
    ensures Match(UCHAR, "\\U" + h) == if |h| >= 8 && HexDigits(h[..8]) then Some(10) else None
  {
    EightHexes(h);
    EscapeFrom('U', Then(HEX4, HEX4), h);
    ElseFrom(SHORT_UCHAR, LONG_UCHAR, "\\U" + h);
    SecondChar("\\U" + h);
  }

  /** A percent sign in a local name takes two hexadecimal digits. */
  lemma PercentReads(h: string)
    ensures Match(PLX, "%" + h) == if |h| >= 2 && HexDigits(h[..2]) then Some(3) else None
  {
    HexesRead(h);
    OneThen('%', Then(HEX, HEX), h);
    assert ['%'] + h == "%" + h;
    OneReads('\\', "%" + h);
    ElseFrom(PERCENT, PN_LOCAL_ESC, "%" + h);
  }

  /** Language tags are letters, and after a hyphen letters or digits. */
  lemma LangAlphabet(a: char, c: char)
    ensures LegalLang([a]) <==> InTable(a, LETTER_TABLE)
    ensures Matches(SUBTAG_R, ['-', c]) <==> InTable(c, LETTER_TABLE) || c in DIGIT_TABLE
  {
    LetterIsTable(a);
    LetterIsTable(c);
    DigitIsTable(c);
    SomeOfOne(Letter(IsAlpha), a);
    SomeOfOne(Letter(IsAlnum), c);
    SubtagNotShort(a);
    CatOfNone(Letter(IsAlpha), Rep(Letter(IsAlpha)));
    RepOfOne(SUBTAG_R, a);
    CatOfOne(Some1(Letter(IsAlpha)), Rep(SUBTAG_R), a);
    CatOfNone(Letter(IsAlnum), Rep(Letter(IsAlnum)));
    CatOfTwo(Char('-'), Some1(Letter(IsAlnum)), '-', c);
  }

  lemma SubtagNotShort(a: char)
    ensures !Matches(SUBTAG_R, [a])
  {
    CatOfNone(Letter(IsAlnum), Rep(Letter(IsAlnum)));
    CatOfOne(Char('-'), Some1(Letter(IsAlnum)), a);
  }

  lemma SomeOfOne(part: Regex, c: char)
    requires !Matches(part, [])
    ensures Matches(Some1(part), [c]) <==> Matches(part, [c])
  {
    CatOfOne(part, Rep(part), c);
  }

  // ---- Numbers.

  lemma DigitsOfOne(c: char)
    ensures Matches(DIGITS_R, [c]) <==> c in DIGIT_TABLE
    ensures !Matches(DIGITS_R, [])
  {
    DigitIsTable(c);
    SomeOfOne(DIGIT_R, c);
    CatOfNone(DIGIT_R, Rep(DIGIT_R));
  }

  /** Signs and digits. */
  lemma IntegerAlphabet(a: char, b: char)
    ensures Matches(INTEGER_R, [a]) <==> a in DIGIT_TABLE
    ensures Matches(INTEGER_R, [a, b]) <==> (a in "+-" || a in DIGIT_TABLE) && b in DIGIT_TABLE
  {
    DigitsOfOne(a);
    DigitsOfOne(b);
    DigitIsTable(a);
    RepOfOne(DIGIT_R, b);
    CatOfTwo(DIGIT_R, Rep(DIGIT_R), a, b);
    CatOfOne(SIGN_R, DIGITS_R, a);
    CatOfTwo(SIGN_R, DIGITS_R, a, b);
  }

  lemma ExponentAlphabet(e: char, b: char)
    ensures Matches(EXPONENT_R, [e, b]) <==> e in "eE" && b in DIGIT_TABLE
    ensures !Matches(EXPONENT_R, []) && !Matches(EXPONENT_R, [b])
  {
    DigitsOfOne(b);
    DigitsOfOne(e);
    var power := Cat(SIGN_R, DIGITS_R);
    CatOfNone(SIGN_R, DIGITS_R);
    CatOfOne(SIGN_R, DIGITS_R, b);
    CatOfNone(Letter(IsE), power);
    CatOfOne(Letter(IsE), power, b);
    CatOfTwo(Letter(IsE), power, e, b);
  }

  // ---- Strings in all quotes, and the space between empty brackets.

  lemma LongAlphabet(quote: char, f: char -> bool, c: char)
    requires PartsOf(quote, f)
    ensures Matches(Rep(LongPartR(quote, f)), [c]) <==> f(c)
  {
    var part := Alt(Letter(f), ESCAPE_R);
    BackslashOnly(c);
    AltElim(Letter(f), ESCAPE_R, [c]);
    AltElim(ECHAR_R, UCHAR_R, [c]);
    AltElim(Letter(f), ESCAPE_R, []);
    NoEmptyEscape();
    LeadMatches(quote, []);
    LeadMatches(quote, [c]);
    CatOfOne(LeadR(quote), part, c);
    RepOfOne(LongPartR(quote, f), c);
  }

  lemma NoEmptyEscape()
    ensures !Matches(ESCAPE_R, [])
  {
    AltElim(ECHAR_R, UCHAR_R, []);
    AltElim(SHORT_UCHAR_R, LONG_UCHAR_R, []);
    CatOfNone(Char('\\'), Letter(IsEscaped));
    CatOfNone(Char('\\'), Cat(Char('u'), HEX4_R));
    CatOfNone(Char('\\'), Cat(Char('U'), Cat(HEX4_R, HEX4_R)));
  }

  /** In each of the four forms: not its own quote, no backslash, and no line end in a short one. */
  lemma FormAlphabet(form: Form, c: char)
    requires IsForm(form)
    ensures LegalIn(form, [c]) <==> c != form.quote && c != '\\' && (c in "\r\n" ==> form.long)
  {
    if form.long {
      LongAlphabet(form.quote, if form.quote == '"' then IsLongChar else IsLongSingleChar, c);
    } else {
      var f := if form.quote == '"' then IsStringChar else IsSingleQuotedChar;
      BackslashOnly(c);
      AltElim(Letter(f), ESCAPE_R, [c]);
      AltElim(ECHAR_R, UCHAR_R, [c]);
      RepOfOne(Alt(Letter(f), ESCAPE_R), c);
    }
  }

  lemma SpaceAlphabet(c: char)
    ensures Match(ANON, ['[', c, ']']) == Some(3) <==> c in " \t\r\n"
  {
    var s, rest := ['[', c, ']'], [c, ']'];
    var last: string := [']'];
    assert s == ['['] + rest && rest[1..] == last && last[1..] == [];
    OneThen('[', Then(Star(Class(IsAnonSpace)), One(']')), rest);
    OneReads(']', last);
    StopsAt(last);
    if IsAnonSpace(c) {
      StarOnceTo(Class(IsAnonSpace), rest, 1, last);
      ThenFrom(Star(Class(IsAnonSpace)), One(']'), rest, 1);
    } else {
      StopsAt(rest);
      TakeAll(rest);
      ThenFrom(Star(Class(IsAnonSpace)), One(']'), rest, 0);
    }
  }

  lemma StopsAt(s: string)
    requires s != [] && !IsAnonSpace(s[0])
    ensures Match(Star(Class(IsAnonSpace)), s) == Some(0)
  {
  }

  // ---- Escapes within texts.

  lemma OneLetter(letter: char, r: Regex, h: string)
    requires Matches(r, h)
    ensures Matches(Cat(Char('\\'), Cat(Char(letter), r)), ['\\', letter] + h)
  {
    CatIntro(Char(letter), r, [letter], h);
    CatIntro(Char('\\'), Cat(Char(letter), r), ['\\'], [letter] + h);
    assert ['\\'] + ([letter] + h) == ['\\', letter] + h;
  }

  lemma FourHexes(h: string)
    requires |h| == 4 && HexDigits(h)
    ensures Matches(HEX4_R, h)
  {
    EscapeTokens();
    Hex4Reads(h);
    TakeAll(h);
    TokenClass(IsHex);
    TokenThen(HEX, HEX, HEX_R, HEX_R);
    TokenThen(HEX, Then(HEX, HEX), HEX_R, Cat(HEX_R, HEX_R));
    TokenThen(HEX, Then(HEX, Then(HEX, HEX)), HEX_R, Cat(HEX_R, Cat(HEX_R, HEX_R)));
    ReadIsToken(HEX4, HEX4_R, h);
  }

  lemma OnePart(part: Regex, t: string)
    requires Matches(part, t) && t != []
    ensures Matches(Rep(part), t)
  {
    RepIntro(part, t, []);
    assert t + [] == t;
  }

  lemma UnicodeParts(t: string)
    requires Matches(UCHAR_R, t) && t != []
    ensures LegalIri(t) && LegalValue(t)
  {
    AltElim(Letter(IsIriChar), UCHAR_R, t);
    AltElim(ECHAR_R, UCHAR_R, t);
    AltElim(Letter(IsStringChar), Alt(ECHAR_R, UCHAR_R), t);
    OnePart(IRI_PART_R, t);
    OnePart(STRING_PART_R, t);
  }

  /** Numeric escapes may stand in IRIs and in values, letter escapes in values only. */
  lemma EscapesAreLegal(h: string, c: char)
    requires HexDigits(h)
    ensures |h| == 4 ==> LegalIri(['\\', 'u'] + h) && LegalValue(['\\', 'u'] + h)
    ensures |h| == 8 ==> LegalIri(['\\', 'U'] + h) && LegalValue(['\\', 'U'] + h)
    ensures c in "tbnrf\"'\\" ==> LegalValue(['\\', c])
  {
    if |h| == 4 {
      FourHexes(h);
      OneLetter('u', HEX4_R, h);
      AltElim(SHORT_UCHAR_R, LONG_UCHAR_R, ['\\', 'u'] + h);
      UnicodeParts(['\\', 'u'] + h);
    }
    if |h| == 8 {
      FourHexes(h[..4]);
      FourHexes(h[4..]);
      CatIntro(HEX4_R, HEX4_R, h[..4], h[4..]);
      assert h[..4] + h[4..] == h;
      OneLetter('U', Cat(HEX4_R, HEX4_R), h);
      AltElim(SHORT_UCHAR_R, LONG_UCHAR_R, ['\\', 'U'] + h);
      UnicodeParts(['\\', 'U'] + h);
    }
    if c in "tbnrf\"'\\" {
      LetterEscape(c);
    }
  }

  lemma LetterEscape(c: char)
    requires c in "tbnrf\"'\\"
    ensures LegalValue(['\\', c])
  {
    var t := ['\\', c];
    CatIntro(Char('\\'), Letter(IsEscaped), ['\\'], [c]);
    assert ['\\'] + [c] == t;
    AltElim(ECHAR_R, UCHAR_R, t);
    AltElim(Letter(IsStringChar), Alt(ECHAR_R, UCHAR_R), t);
    OnePart(STRING_PART_R, t);
  }
}
