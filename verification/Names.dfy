/** The name terminals as the grammar composes them, against the productions of section 6.5 of RDF 1.1 Turtle. */
module Names {
  import opened Labels
  import opened Peg
  import opened PegLaws

  predicate Between(c: char, low: int, high: int) {
    low <= c as int <= high
  }

  predicate IsLower(c: char) { 'a' <= c <= 'z' }

  predicate IsUpper(c: char) { 'A' <= c <= 'Z' }

  predicate IsAlpha(c: char) { IsLower(c) || IsUpper(c) }

  predicate IsAlnum(c: char) { IsAlpha(c) || IsDigit(c) }

  predicate IsHex(c: char) { 'a' <= c <= 'f' || 'A' <= c <= 'F' || IsDigit(c) }

  predicate IsPnCharsBase(c: char) {
    || IsLower(c) || IsUpper(c)
    || Between(c, 0x00C0, 0x00D6) || Between(c, 0x00D8, 0x00F6) || Between(c, 0x00F8, 0x02FF)
    || Between(c, 0x0370, 0x037D) || Between(c, 0x037F, 0x1FFF) || Between(c, 0x200C, 0x200D)
    || Between(c, 0x2070, 0x218F) || Between(c, 0x2C00, 0x2FEF) || Between(c, 0x3001, 0xD7FF)
    || Between(c, 0xF900, 0xFDCF) || Between(c, 0xFDF0, 0xFFFD) || Between(c, 0x10000, 0xEFFFF)
  }

  predicate IsPnCharsU(c: char) { IsPnCharsBase(c) || c == '_' }

  predicate IsPnChars(c: char) {
    || IsPnCharsU(c) || c == '-' || IsDigit(c)
    || Between(c, 0x00B7, 0x00B7) || Between(c, 0x0300, 0x036F) || Between(c, 0x203F, 0x2040)
  }

  /** The characters a local name may escape with a backslash. */
  predicate IsLocalEscape(c: char) {
    c in "_~.-!$&'()*+,;=/?#@%"
  }

  // ---- The rules, as in the grammar.

  const HEX := Class(IsHex)
  const DIGIT := Class(IsDigit)
  const PERCENT := Then(One('%'), Then(HEX, HEX))
  const PN_LOCAL_ESC := Then(One('\\'), Class(IsLocalEscape))
  const PLX := Else(PERCENT, PN_LOCAL_ESC)
  const PN_CHARS_BASE := Class(IsPnCharsBase)
  const PN_CHARS_U := Class(IsPnCharsU)
  const PN_CHARS := Class(IsPnChars)
  const LOCAL_HEAD := Else(PN_CHARS_U, Else(One(':'), Else(DIGIT, PLX)))
  const LOCAL_UNIT := Else(PN_CHARS, Else(One(':'), PLX))
  const PN_LOCAL := Then(LOCAL_HEAD, TailRule(LOCAL_UNIT, true))
  const PN_PREFIX := Then(PN_CHARS_BASE, TailRule(PN_CHARS, false))
  const LABEL_HEAD := Else(PN_CHARS_U, DIGIT)
  const BLANK_NODE_LABEL := Then(One('_'), Then(One(':'), Then(LABEL_HEAD, TailRule(PN_CHARS, false))))

  // ---- The productions, as in the standard.

  const PERCENT_R := Cat(Char('%'), Cat(Letter(IsHex), Letter(IsHex)))
  const PN_LOCAL_ESC_R := Cat(Char('\\'), Letter(IsLocalEscape))
  const PLX_R := Alt(PERCENT_R, PN_LOCAL_ESC_R)
  const PN_CHARS_R := Letter(IsPnChars)
  const LOCAL_HEAD_R := Alt(Letter(IsPnCharsU), Alt(Char(':'), Alt(Letter(IsDigit), PLX_R)))
  const LOCAL_UNIT_R := Alt(PN_CHARS_R, Alt(Char(':'), PLX_R))
  const LOCAL_BODY_R := Alt(PN_CHARS_R, Alt(Char('.'), Alt(Char(':'), PLX_R)))
  const PN_LOCAL_R := Cat(LOCAL_HEAD_R, Maybe(Cat(Rep(LOCAL_BODY_R), LOCAL_UNIT_R)))
  const NAME_BODY_R := Alt(PN_CHARS_R, Char('.'))
  const PN_PREFIX_R := Cat(Letter(IsPnCharsBase), Maybe(Cat(Rep(NAME_BODY_R), PN_CHARS_R)))
  const LABEL_HEAD_R := Alt(Letter(IsPnCharsU), Letter(IsDigit))
  const BLANK_NODE_LABEL_R :=
    Cat(Char('_'), Cat(Char(':'), Cat(LABEL_HEAD_R, Maybe(Cat(Rep(NAME_BODY_R), PN_CHARS_R)))))

  lemma OneToken(c: char)
    ensures Token(One(c), Char(c))
  {
  }

  lemma PlxToken()
    ensures Token(PLX, PLX_R)
  {
    OneToken('%');
    OneToken('\\');
    TokenClass(IsHex);
    TokenClass(IsLocalEscape);
    TokenThen(HEX, HEX, Letter(IsHex), Letter(IsHex));
    TokenThen(One('%'), Then(HEX, HEX), Char('%'), Cat(Letter(IsHex), Letter(IsHex)));
    TokenThen(One('\\'), Class(IsLocalEscape), Char('\\'), Letter(IsLocalEscape));
    assert Apart(PERCENT, PN_LOCAL_ESC);
    TokenElse(PERCENT, PN_LOCAL_ESC, PERCENT_R, PN_LOCAL_ESC_R);
  }

  lemma PlxStarts(s: string)
    ensures Match(PLX, s).Some? ==> s != [] && (s[0] == '%' || s[0] == '\\')
  {
    assert Match(PERCENT, s).Some? ==> Match(One('%'), s).Some?;
    assert Match(PN_LOCAL_ESC, s).Some? ==> Match(One('\\'), s).Some?;
  }

  lemma ColonOrPlxStarts(s: string)
    ensures Match(Else(One(':'), PLX), s).Some? ==> s != [] && (s[0] == ':' || s[0] == '%' || s[0] == '\\')
    ensures Match(Else(DIGIT, PLX), s).Some? ==> s != [] && (IsDigit(s[0]) || s[0] == '%' || s[0] == '\\')
    ensures Match(Else(One(':'), Else(DIGIT, PLX)), s).Some?
            ==> s != [] && (s[0] == ':' || IsDigit(s[0]) || s[0] == '%' || s[0] == '\\')
  {
    PlxStarts(s);
    assert Match(One(':'), s).Some? ==> s[0] == ':';
    assert Match(DIGIT, s).Some? ==> IsDigit(s[0]);
    assert Match(Else(DIGIT, PLX), s).Some? ==> Match(DIGIT, s).Some? || Match(PLX, s).Some?;
  }

  lemma ColonOrPlxToken()
    ensures Token(Else(One(':'), PLX), Alt(Char(':'), PLX_R))
  {
    OneToken(':');
    PlxToken();
    forall s: string
      ensures Match(One(':'), s).None? || Match(PLX, s).None?
    {
      PlxStarts(s);
    }
    TokenElse(One(':'), PLX, Char(':'), PLX_R);
  }

  lemma LocalUnitLaws()
    ensures UnitLaws(LOCAL_UNIT, LOCAL_UNIT_R, LOCAL_BODY_R)
  {
    TokenClass(IsPnChars);
    ColonOrPlxToken();
    forall s: string
      ensures Match(PN_CHARS, s).None? || Match(Else(One(':'), PLX), s).None?
    {
      PlxStarts(s);
      ColonOrPlxStarts(s);
    }
    TokenElse(PN_CHARS, Else(One(':'), PLX), PN_CHARS_R, Alt(Char(':'), PLX_R));
    forall s: string
      ensures UnitAt(LOCAL_UNIT, s)
    {
      PlxStarts(s);
      ColonOrPlxStarts(s);
      assert TokenAt(LOCAL_UNIT, LOCAL_UNIT_R, s);
      assert Match(LOCAL_UNIT, s).Some? ==> Match(PN_CHARS, s).Some? || Match(Else(One(':'), PLX), s).Some?;
    }
    forall t: string
      ensures BodyAt(LOCAL_BODY_R, LOCAL_UNIT_R, t)
    {
      assert Matches(Char('.'), t) <==> t == ".";
    }
  }

  lemma NameUnitLaws()
    ensures UnitLaws(PN_CHARS, PN_CHARS_R, NAME_BODY_R)
  {
    TokenClass(IsPnChars);
    forall s: string
      ensures UnitAt(PN_CHARS, s)
    {
    }
    forall t: string
      ensures BodyAt(NAME_BODY_R, PN_CHARS_R, t)
    {
      assert Matches(Char('.'), t) <==> t == ".";
    }
  }

  lemma LocalHeadToken()
    ensures Token(LOCAL_HEAD, LOCAL_HEAD_R)
  {
    TokenClass(IsPnCharsU);
    TokenClass(IsDigit);
    OneToken(':');
    PlxToken();
    forall s: string
      ensures Match(DIGIT, s).None? || Match(PLX, s).None?
      ensures Match(One(':'), s).None? || Match(Else(DIGIT, PLX), s).None?
      ensures Match(PN_CHARS_U, s).None? || Match(Else(One(':'), Else(DIGIT, PLX)), s).None?
    {
      PlxStarts(s);
      ColonOrPlxStarts(s);
    }
    TokenElse(DIGIT, PLX, Letter(IsDigit), PLX_R);
    TokenElse(One(':'), Else(DIGIT, PLX), Char(':'), Alt(Letter(IsDigit), PLX_R));
    TokenElse(PN_CHARS_U, Else(One(':'), Else(DIGIT, PLX)), Letter(IsPnCharsU),
              Alt(Char(':'), Alt(Letter(IsDigit), PLX_R)));
  }

  lemma LabelHeadToken()
    ensures Token(LABEL_HEAD, LABEL_HEAD_R)
  {
    TokenClass(IsPnCharsU);
    TokenClass(IsDigit);
    assert Apart(PN_CHARS_U, DIGIT);
    TokenElse(PN_CHARS_U, DIGIT, Letter(IsPnCharsU), Letter(IsDigit));
  }

  /** Main result: the local-name rule consumes exactly the longest prefix in PN_LOCAL. */
  lemma PnLocalIsLongest(s: string)
    ensures Longest(PN_LOCAL, PN_LOCAL_R, s)
  {
    LocalHeadToken();
    LocalUnitLaws();
    var head := Match(LOCAL_HEAD, s);
    if head.Some? {
      TailLongest(LOCAL_UNIT, LOCAL_UNIT_R, LOCAL_BODY_R, true, s[head.value..]);
    }
    ThenLongest(LOCAL_HEAD, TailRule(LOCAL_UNIT, true), LOCAL_HEAD_R, TailProduction(LOCAL_BODY_R, LOCAL_UNIT_R), s);
  }

  /** Main result: likewise for PN_PREFIX. */
  lemma PnPrefixIsLongest(s: string)
    ensures Longest(PN_PREFIX, PN_PREFIX_R, s)
  {
    TokenClass(IsPnCharsBase);
    NameUnitLaws();
    if Match(PN_CHARS_BASE, s).Some? {
      TailLongest(PN_CHARS, PN_CHARS_R, NAME_BODY_R, false, s[Match(PN_CHARS_BASE, s).value..]);
    }
    ThenLongest(PN_CHARS_BASE, TailRule(PN_CHARS, false), Letter(IsPnCharsBase),
                TailProduction(NAME_BODY_R, PN_CHARS_R), s);
  }

  lemma LabelTextIsLongest(s: string)
    ensures Longest(Then(LABEL_HEAD, TailRule(PN_CHARS, false)),
                    Cat(LABEL_HEAD_R, TailProduction(NAME_BODY_R, PN_CHARS_R)), s)
  {
    LabelHeadToken();
    NameUnitLaws();
    if Match(LABEL_HEAD, s).Some? {
      TailLongest(PN_CHARS, PN_CHARS_R, NAME_BODY_R, false, s[Match(LABEL_HEAD, s).value..]);
    }
    ThenLongest(LABEL_HEAD, TailRule(PN_CHARS, false), LABEL_HEAD_R, TailProduction(NAME_BODY_R, PN_CHARS_R), s);
  }

  /** Main result: likewise for BLANK_NODE_LABEL. */
  lemma BlankNodeLabelIsLongest(s: string)
    ensures Longest(BLANK_NODE_LABEL, BLANK_NODE_LABEL_R, s)
  {
    OneToken('_');
    OneToken(':');
    var text := Then(LABEL_HEAD, TailRule(PN_CHARS, false));
    var textR := Cat(LABEL_HEAD_R, TailProduction(NAME_BODY_R, PN_CHARS_R));
    if s != [] {
      if s[1..] != [] {
        LabelTextIsLongest(s[1..][1..]);
      }
      ThenLongest(One(':'), text, Char(':'), textR, s[1..]);
    }
    ThenLongest(One('_'), Then(One(':'), text), Char('_'), Cat(Char(':'), textR), s);
  }

  /** A dot may end a text only as an escaped one. */
  predicate EndsWell(t: string) {
    t != [] && (t[|t| - 1] == '.' ==> |t| >= 2 && t[|t| - 2] == '\\')
  }

  lemma PlxEndsWell(t: string)
    requires Matches(PLX_R, t)
    ensures EndsWell(t)
  {
    if Matches(PERCENT_R, t) {
      var i := CatElim(Char('%'), Cat(Letter(IsHex), Letter(IsHex)), t);
      var j := CatElim(Letter(IsHex), Letter(IsHex), t[i..]);
      assert IsHex(t[i..][j..][0]);
    } else {
      var i := CatElim(Char('\\'), Letter(IsLocalEscape), t);
      assert t[..i][0] == '\\' && |t| == 2;
    }
  }

  lemma LocalPartsEndWell(t: string)
    ensures Matches(LOCAL_HEAD_R, t) || Matches(LOCAL_UNIT_R, t) ==> EndsWell(t)
  {
    if Matches(PLX_R, t) {
      PlxEndsWell(t);
    }
    if Matches(LOCAL_HEAD_R, t) {
      AltElim(Letter(IsPnCharsU), Alt(Char(':'), Alt(Letter(IsDigit), PLX_R)), t);
      AltElim(Char(':'), Alt(Letter(IsDigit), PLX_R), t);
      AltElim(Letter(IsDigit), PLX_R, t);
    }
    if Matches(LOCAL_UNIT_R, t) {
      AltElim(PN_CHARS_R, Alt(Char(':'), PLX_R), t);
      AltElim(Char(':'), PLX_R, t);
    }
  }

  lemma AltElim(one: Regex, two: Regex, t: string)
    ensures Matches(Alt(one, two), t) <==> Matches(one, t) || Matches(two, t)
  {
  }

  /** Main result: a local name never takes a dot that ends it, unless the dot is escaped. */
  lemma PnLocalNeverEndsInDot(s: string)
    requires Match(PN_LOCAL, s).Some?
    ensures EndsWell(s[..Match(PN_LOCAL, s).value])
  {
    PnLocalIsLongest(s);
    LocalEndsWell(s[..Match(PN_LOCAL, s).value]);
  }

  lemma LocalEndsWell(t: string)
    requires Matches(PN_LOCAL_R, t)
    ensures EndsWell(t)
  {
    var i := CatElim(LOCAL_HEAD_R, TailProduction(LOCAL_BODY_R, LOCAL_UNIT_R), t);
    LocalPartsEndWell(t[..i]);
    LocalTailEndsWell(t[i..]);
    assert t[..i] + t[i..] == t;
    if t[i..] != [] {
      EndsWellAfter(t[..i], t[i..]);
    }
  }

  lemma LocalTailEndsWell(t: string)
    requires Matches(TailProduction(LOCAL_BODY_R, LOCAL_UNIT_R), t)
    ensures t == [] || EndsWell(t)
  {
    if Matches(Cat(Rep(LOCAL_BODY_R), LOCAL_UNIT_R), t) {
      var j := CatElim(Rep(LOCAL_BODY_R), LOCAL_UNIT_R, t);
      LocalPartsEndWell(t[j..]);
      EndsWellAfter(t[..j], t[j..]);
      assert t[..j] + t[j..] == t;
    } else {
      AltElim(Cat(Rep(LOCAL_BODY_R), LOCAL_UNIT_R), Nothing, t);
    }
  }

  lemma EndsWellAfter(a: string, b: string)
    requires EndsWell(b)
    ensures EndsWell(a + b)
  {
  }

  /** A tail of name characters and dots is empty or ends in a name character. */
  lemma NameTailEnds(t: string)
    requires Matches(TailProduction(NAME_BODY_R, PN_CHARS_R), t)
    ensures t == [] || t[|t| - 1] != '.'
  {
    if Matches(Cat(Rep(NAME_BODY_R), PN_CHARS_R), t) {
      var j := CatElim(Rep(NAME_BODY_R), PN_CHARS_R, t);
      assert IsPnChars(t[j..][0]);
    } else {
      AltElim(Cat(Rep(NAME_BODY_R), PN_CHARS_R), Nothing, t);
    }
  }

  lemma NameEnds(head: Regex, t: string)
    requires head == Letter(IsPnCharsBase) || head == LABEL_HEAD_R
    requires Matches(Cat(head, TailProduction(NAME_BODY_R, PN_CHARS_R)), t)
    ensures t != [] && t[|t| - 1] != '.'
  {
    var i := CatElim(head, TailProduction(NAME_BODY_R, PN_CHARS_R), t);
    NameTailEnds(t[i..]);
    if head == LABEL_HEAD_R {
      AltElim(Letter(IsPnCharsU), Letter(IsDigit), t[..i]);
    }
    assert i == 1 && t[..i][0] != '.';
  }

  /** Main result: likewise a prefix never takes a dot that ends it. */
  lemma PnPrefixNeverEndsInDot(s: string)
    requires Match(PN_PREFIX, s).Some?
    ensures var n := Match(PN_PREFIX, s).value;
            n > 0 && s[n - 1] != '.'
  {
    PnPrefixIsLongest(s);
    NameEnds(Letter(IsPnCharsBase), s[..Match(PN_PREFIX, s).value]);
  }

  /** Main result: nor does a blank-node label. */
  lemma BlankNodeLabelNeverEndsInDot(s: string)
    requires Match(BLANK_NODE_LABEL, s).Some?
    ensures var n := Match(BLANK_NODE_LABEL, s).value;
            n > 0 && s[n - 1] != '.'
  {
    BlankNodeLabelIsLongest(s);
    var t := s[..Match(BLANK_NODE_LABEL, s).value];
    var text := Cat(LABEL_HEAD_R, TailProduction(NAME_BODY_R, PN_CHARS_R));
    var i := CatElim(Char('_'), Cat(Char(':'), text), t);
    var j := CatElim(Char(':'), text, t[i..]);
    NameEnds(LABEL_HEAD_R, t[i..][j..]);
  }
}
