/** Generated blank-node labels: the letter b and the decimal text of a counter. */
module Labels {
  import opened Terms

  function Digit(d: nat): char
    requires d < 10
  {
    ('0' as int + d) as char
  }

  function Decimal(n: nat): string {
    if n < 10 then [Digit(n)] else Decimal(n / 10) + [Digit(n % 10)]
  }

  predicate IsDigit(c: char) {
    '0' <= c <= '9'
  }

  /** Reads a run of digits as a number. */
  function Number(text: string): nat
    requires forall i :: 0 <= i < |text| ==> IsDigit(text[i])
  {
    if text == [] then 0
    else
      assert IsDigit(text[|text| - 1]);
      10 * Number(text[..|text| - 1]) + (text[|text| - 1] as int - '0' as int)
  }

  /** Printing a counter and reading it back returns the counter. */
  lemma {:induction false} DecimalRoundTrip(n: nat)
    ensures Decimal(n) != []
    ensures forall i :: 0 <= i < |Decimal(n)| ==> IsDigit(Decimal(n)[i])
    ensures Number(Decimal(n)) == n
  {
    if n < 10 {
      assert Decimal(n)[..0] == [];
    } else {
      DecimalRoundTrip(n / 10);
      var front := Decimal(n / 10);
      assert Decimal(n)[..|Decimal(n)| - 1] == front;
    }
  }

  /** A counter has no leading zero, so the printed text is the only canonical one. */
  lemma {:induction false} DecimalLeadingDigit(n: nat)
    requires n > 0
    ensures Decimal(n)[0] != '0'
  {
    if n >= 10 {
      DecimalLeadingDigit(n / 10);
    }
  }

  /** The node the parser makes for counter value n. */
  function Generated(n: nat): Term {
    BNode("b" + Decimal(n))
  }

  /** Labels generated at different counter values differ, and so do their identifiers. */
  lemma GeneratedInjective(a: nat, b: nat)
    requires Generated(a).identifier == Generated(b).identifier
    ensures a == b
  {
    TextAfterLetter(a);
    TextAfterLetter(b);
    DecimalRoundTrip(a);
    DecimalRoundTrip(b);
  }

  lemma TextAfterLetter(n: nat)
    ensures |Generated(n).identifier| >= 3 && Generated(n).identifier[3..] == Decimal(n)
  {
  }

  /** The label texts a document must avoid: b followed by a positive decimal without leading zero. */
  predicate LooksGenerated(name: string) {
    && |name| >= 2 && name[0] == 'b' && name[1] != '0'
    && forall i :: 1 <= i < |name| ==> IsDigit(name[i])
  }

  lemma {:induction false} CanonicalDecimal(text: string)
    requires text != [] && text[0] != '0'
    requires forall i :: 0 <= i < |text| ==> IsDigit(text[i])
    ensures Number(text) > 0 && Decimal(Number(text)) == text
  {
    var last := text[|text| - 1];
    var front := text[..|text| - 1];
    if |text| == 1 {
      assert front == [] && text == [last];
    } else {
      CanonicalDecimal(front);
      assert text == front + [last];
    }
  }

  /** A document label clashes with some generated label exactly when it looks generated. */
  lemma ClashExactly(name: string)
    ensures LooksGenerated(name) <==> exists n: nat :: n > 0 && BNode(name) == Generated(n)
  {
    if LooksGenerated(name) {
      CanonicalDecimal(name[1..]);
      assert name == "b" + Decimal(Number(name[1..]));
      assert BNode(name) == Generated(Number(name[1..]));
    }
    forall n: nat | n > 0 && BNode(name) == Generated(n)
      ensures LooksGenerated(name)
    {
      DecimalRoundTrip(n);
      DecimalLeadingDigit(n);
      assert BNode(name).identifier[2..] == name;
      assert Generated(n).identifier[2..] == "b" + Decimal(n);
    }
  }
}
