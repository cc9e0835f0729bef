/** The same actions on the state as the program keeps it, and the parser of a single term. */
module TermStates {
  import opened Terms
  import opened Labels
  import opened Peg
  import opened TermRules
  import opened Unparsable

  class BasicState {
    var element: Term
    var typeTagFound: bool
    var langTagFound: bool
    var iriIsIriref: bool
    var langTag: string
    var typeTag: string
    var literalString: string
    var blankNodeString: string
    var base: string
    var latestLabel: nat
    var prefixMap: map<string, string>

    function Snapshot(): Basic
      reads this
    {
      Basic(element, Tags(typeTagFound, langTagFound, iriIsIriref, langTag, typeTag),
            literalString, blankNodeString, latestLabel, base, prefixMap)
    }

    constructor ()
      ensures Snapshot() == INITIAL
    {
      element, typeTagFound, langTagFound, iriIsIriref := NO_TERM, false, false, false;
      langTag, typeTag, literalString, blankNodeString, base := "", "", "", "", "";
      latestLabel, prefixMap := 1, map[];
    }

    /** A prefix that is already bound keeps its first value. */
    method AddPrefix(prefix: string, value: string)
      modifies this`prefixMap
      ensures prefixMap == Bind(old(prefixMap), prefix, value)
    {
      if prefix !in prefixMap {
        prefixMap := prefixMap[prefix := value];
      }
    }

    method ApplyIriRef(lexeme: string) returns (ok: bool)
      modifies this
      ensures var r := Apply(OnIriRef, lexeme, old(Snapshot()));
              ok == r.Some? && Snapshot() == if ok then r.value else old(Snapshot())
    {
      var s := Inner(lexeme, 1, 1);
      if base != "" {
        if |s| < 1 {
          return false;
        }
        s := s[..1] + base + s[1..];
      }
      element := URIRef(s);
      iriIsIriref := true;
      ok := true;
    }

    method ApplyPrefixedName(lexeme: string) returns (ok: bool)
      modifies this
      ensures var r := Apply(OnPrefixedName, lexeme, old(Snapshot()));
              ok == r.Some? && Snapshot() == if ok then r.value else old(Snapshot())
    {
      var prefix := BeforeColon(lexeme);
      ok := prefix in prefixMap;
      if ok {
        element := URIRef(prefixMap[prefix] + AfterColon(lexeme));
        iriIsIriref := false;
      }
    }

    method ApplyRdfLiteral()
      modifies this
      ensures Snapshot() == LiteralElement(old(Snapshot()))
    {
      if typeTagFound {
        typeTagFound := false;
        var tag := typeTag;
        if !iriIsIriref {
          var prefix := BeforeColon(typeTag);
          if prefix in prefixMap {
            tag := prefixMap[prefix] + AfterColon(typeTag);
          }
        }
        element := Literal(literalString, None, Some(tag));
      } else if langTagFound {
        langTagFound := false;
        element := Literal(literalString, Some(langTag), None);
      } else {
        element := Literal(literalString, None, None);
      }
    }

    /** Runs one action on its matched text; false where the program throws. */
    method Perform(action: Action, lexeme: string) returns (ok: bool)
      modifies this
      ensures var r := Apply(action, lexeme, old(Snapshot()));
              ok == r.Some? && Snapshot() == if ok then r.value else old(Snapshot())
    {
      ok := true;
      match action
      case OnIriRef => ok := ApplyIriRef(lexeme);
      case OnPrefixedName => ok := ApplyPrefixedName(lexeme);
      case OnAnon =>
        blankNodeString := "b" + Decimal(latestLabel);
        latestLabel := latestLabel + 1;
      case OnBoolean =>
        literalString := lexeme;
        element := Literal(literalString, None, Some(XSD_BOOLEAN));
      case OnDouble => typeTag := XSD_DOUBLE;
      case OnDecimal => typeTag := XSD_DECIMAL;
      case OnInteger => typeTag := XSD_INTEGER;
      case OnNumeric => element := Literal(lexeme, None, Some(typeTag));
      case OnRdfLiteral => ApplyRdfLiteral();
      case OnTypeTag =>
        typeTagFound := true;
        typeTag := if iriIsIriref then Inner(lexeme, 3, 1) else Inner(lexeme, 2, 0);
      case OnLangTag =>
        langTagFound := true;
        langTag := Inner(lexeme, 1, 0);
      case OnString => literalString := Inner(lexeme, 1, 1);
      case OnBlankNode => element := BNode(blankNodeString);
      case OnBlankLabel =>
        literalString := Inner(lexeme, 2, 0);
        blankNodeString := literalString;
    }
  }

  /** How a rule ended: matched with its length, not matched, or an action threw. */
  datatype Verdict = Consumed(length: nat) | NoMatch | Exception

  ghost predicate Follows(r: Outcome, verdict: Verdict, st: Basic) {
    match r
    case Matched(n, after) => verdict == Consumed(n) && st == after
    case Unmatched(after) => verdict == NoMatch && st == after
    case Thrown => verdict == Exception
  }

  /** Matches a rule and fires its actions as it goes. */
  method MatchRule(rule: Rule, s: string, state: BasicState) returns (verdict: Verdict)
    modifies state
    ensures Follows(Run(rule, s, old(state.Snapshot())), verdict, state.Snapshot())
    decreases rule
  {
    match rule
    case Plain(peg) =>
      var n := Match(peg, s);
      verdict := if n.Some? then Consumed(n.value) else NoMatch;
    case Do(action, inner) =>
      verdict := MatchRule(inner, s, state);
      if verdict.Consumed? {
        var ok := state.Perform(action, s[..verdict.length]);
        if !ok {
          verdict := Exception;
        }
      }
    case Both(first, second) =>
      verdict := MatchRule(first, s, state);
      if verdict.Consumed? {
        var n := verdict.length;
        verdict := MatchRule(second, s[n..], state);
        if verdict.Consumed? {
          verdict := Consumed(n + verdict.length);
        }
      }
    case Either(preferred, other) =>
      verdict := MatchRule(preferred, s, state);
      if verdict.NoMatch? {
        verdict := MatchRule(other, s, state);
      }
    case Perhaps(inner) =>
      verdict := MatchRule(inner, s, state);
      if verdict.NoMatch? {
        verdict := Consumed(0);
      }
  }

  /** Parses one term from a fresh state. */
  method ParseTerm(identifier: string) returns (term: Option<Term>)
    ensures term == ParsedTerm(identifier)
    ensures term.None? <==> Refused(identifier)
    ensures term == Some(NO_TERM) <==> NothingFound(identifier)
  {
    RefusedExactly(identifier);
    NothingFoundExactly(identifier);
    var state := new BasicState();
    var verdict := MatchRule(TERM, identifier, state);
    term := if verdict.Exception? then None else Some(state.element);
  }

  /**
   Asks whether a text is a term. The handler waits for the exception that is documented, but building its message,
   which has a place for the text and no text, raises a formatting error instead, and that one is not caught: None.
   So the answer is never no.
   */
  method TermParsable(identifier: string) returns (answer: Option<bool>)
    ensures answer == if Refused(identifier) then None else Some(true)
  {
    var term := ParseTerm(identifier);
    answer := if term.Some? then Some(true) else None;
  }
}
