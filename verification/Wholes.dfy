/** The texts called legal are exactly those that the terminals consume whole between their delimiters. */
module Wholes {
  import opened Terms
  import opened Peg
  import opened PegLaws
  import opened Names
  import opened Tokens
  import opened Identity
  import opened RoundTrip

  /** What the rule consumes lies in the production. */
  ghost predicate SoundAt(p: Peg, r: Regex, s: string) {
    match Match(p, s)
    case None => true
    case Some(n) => Matches(r, s[..n])
  }

  ghost predicate Sound(p: Peg, r: Regex) {
    forall s: string :: SoundAt(p, r, s)
  }

  lemma SoundClass(f: char -> bool)
    ensures Sound(Class(f), Letter(f))
  {
    forall s: string
      ensures SoundAt(Class(f), Letter(f), s)
    {
    }
  }

  lemma SoundToken(p: Peg, r: Regex)
    requires Token(p, r)
    ensures Sound(p, r)
  {
    forall s: string
      ensures SoundAt(p, r, s)
    {
      assert TokenAt(p, r, s);
    }
  }

  lemma SoundThen(p: Peg, q: Peg, pr: Regex, qr: Regex)
    requires Sound(p, pr) && Sound(q, qr)
    ensures Sound(Then(p, q), Cat(pr, qr))
  {
    forall s: string
      ensures SoundAt(Then(p, q), Cat(pr, qr), s)
    {
      ThenIsSound(p, q, pr, qr, s);
    }
  }

  lemma ThenIsSound(p: Peg, q: Peg, pr: Regex, qr: Regex, s: string)
    requires Sound(p, pr) && Sound(q, qr)
    ensures SoundAt(Then(p, q), Cat(pr, qr), s)
  {
    var a := Match(p, s);
    if a.Some? {
      ThenFrom(p, q, s, a.value);
      assert SoundAt(p, pr, s) && SoundAt(q, qr, s[a.value..]);
      var b := Match(q, s[a.value..]);
      if b.Some? {
        CatAt(pr, qr, s, a.value, a.value + b.value);
      }
    }
  }

  lemma {:induction false} StarIsSound(p: Peg, r: Regex, s: string)
    requires Sound(p, r)
    ensures SoundAt(Star(p), Rep(r), s)
    decreases |s|
  {
    var a := Match(p, s);
    if a.Some? && a.value > 0 {
      var rest := s[a.value..];
      assert SoundAt(p, r, s);
      StarIsSound(p, r, rest);
      StarOnceTo(p, s, a.value, rest);
      var n := Match(Star(p), rest).value;
      RepIntro(r, s[..a.value], rest[..n]);
      TakeSplits(s, a.value, a.value + n);
    } else {
      StarSucceeds(p, s);
      TakeAll(s);
    }
  }

  lemma SoundStar(p: Peg, r: Regex)
    requires Sound(p, r)
    ensures Sound(Star(p), Rep(r))
  {
    forall s: string
      ensures SoundAt(Star(p), Rep(r), s)
    {
      StarIsSound(p, r, s);
    }
  }

  // ---- Enclosed texts.

  /** A whole text between two delimiters is what the repetition consumed. */
  lemma EnclosedIsRep(left: char, p: Peg, r: Regex, right: char, v: string, s: string)
    requires Sound(p, r) && s == [left] + (v + [right])
    requires Match(Then(One(left), Then(Star(p), One(right))), s) == Some(|v| + 2)
    ensures Matches(Rep(r), v)
  {
    var inner := v + [right];
    OneThen(left, Then(Star(p), One(right)), inner);
    StarSucceeds(p, inner);
    var n := Match(Star(p), inner).value;
    ThenFrom(Star(p), One(right), inner, n);
    OneReads(right, inner[n..]);
    StarIsSound(p, r, inner);
    assert inner[..|v|] == v;
  }

  /** Main result for IRIs: legal exactly if consumed whole between the brackets. */
  lemma IriExactly(uri: string)
    ensures LegalIri(uri) <==> Match(IRIREF, "<" + uri + ">") == Some(|uri| + 2)
  {
    var s := "<" + uri + ">";
    assert s == ['<'] + (uri + ['>']) && s + "" == s;
    if LegalIri(uri) {
      IriReads(uri, "");
    }
    if Match(IRIREF, s) == Some(|uri| + 2) {
      PartTokens();
      SoundToken(IRI_PART, IRI_PART_R);
      EnclosedIsRep('<', IRI_PART, IRI_PART_R, '>', uri, s);
    }
  }

  /** Likewise for values between double quotes. */
  lemma ValueExactly(value: string)
    ensures LegalValue(value) <==> Match(STRING_LITERAL_QUOTE, "\"" + value + "\"") == Some(|value| + 2)
  {
    var s := "\"" + value + "\"";
    assert s == ['"'] + (value + ['"']) && s + "" == s;
    if LegalValue(value) {
      StringReads(value, "");
    }
    if Match(STRING_LITERAL_QUOTE, s) == Some(|value| + 2) {
      PartTokens();
      SoundToken(STRING_PART, STRING_PART_R);
      EnclosedIsRep('"', STRING_PART, STRING_PART_R, '"', value, s);
    }
  }

  lemma LangIsSound()
    ensures Sound(Then(Plus(Class(IsAlpha)), Star(SUBTAG)), LANG_R)
  {
    SoundClass(IsAlpha);
    SoundClass(IsAlnum);
    SoundStar(Class(IsAlpha), Letter(IsAlpha));
    SoundStar(Class(IsAlnum), Letter(IsAlnum));
    SoundThen(Class(IsAlpha), Star(Class(IsAlpha)), Letter(IsAlpha), Rep(Letter(IsAlpha)));
    SoundThen(Class(IsAlnum), Star(Class(IsAlnum)), Letter(IsAlnum), Rep(Letter(IsAlnum)));
    OneToken('-');
    SoundToken(One('-'), Char('-'));
    SoundThen(One('-'), ALNUMS, Char('-'), Some1(Letter(IsAlnum)));
    SoundStar(SUBTAG, SUBTAG_R);
    SoundThen(Plus(Class(IsAlpha)), Star(SUBTAG), Some1(Letter(IsAlpha)), Rep(SUBTAG_R));
  }

  /** Likewise for language tags after the at sign. */
  lemma LangExactly(lang: string)
    ensures LegalLang(lang) <==> Match(LANGTAG, "@" + lang) == Some(|lang| + 1)
  {
    var tag := Then(Plus(Class(IsAlpha)), Star(SUBTAG));
    assert "@" + lang == ['@'] + lang;
    OneThen('@', tag, lang);
    if LegalLang(lang) {
      LangReads(lang);
    }
    if Match(LANGTAG, "@" + lang) == Some(|lang| + 1) {
      LangIsSound();
      assert SoundAt(tag, LANG_R, lang);
      TakeAll(lang);
    }
  }

  /** Likewise for labels. */
  lemma LabelExactly(name: string)
    ensures LegalLabel(name) <==> Match(BLANK_NODE_LABEL, "_:" + name) == Some(|name| + 2)
  {
    BlankNodeLabelIsLongest("_:" + name);
    TakeAll("_:" + name);
    if LegalLabel(name) {
      LabelReads(name);
    }
  }

  /** Main result: parts are legal exactly if each of their texts is consumed whole by its terminal. */
  lemma LegalExactly(parts: Parts)
    ensures Legal(parts)
       <==> match parts
            case Iri(uri) => Match(IRIREF, "<" + uri + ">") == Some(|uri| + 2)
            case Blank(name) => Match(BLANK_NODE_LABEL, "_:" + name) == Some(|name| + 2)
            case Text(value, tag) =>
              && Match(STRING_LITERAL_QUOTE, "\"" + value + "\"") == Some(|value| + 2)
              && (match tag
                  case Untagged => true
                  case InLang(lang) => Match(LANGTAG, "@" + lang) == Some(|lang| + 1)
                  case OfType(iri) => Match(IRIREF, "<" + iri + ">") == Some(|iri| + 2))
  {
    match parts
    case Iri(uri) => IriExactly(uri);
    case Blank(name) => LabelExactly(name);
    case Text(value, tag) =>
      ValueExactly(value);
      match tag {
        case Untagged =>
        case InLang(lang) => LangExactly(lang);
        case OfType(iri) => IriExactly(iri);
      }
  }
}
