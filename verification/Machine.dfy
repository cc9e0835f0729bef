/**
 The parser state as a value, with one function per state operation, and the runs that the
 grammar's actions make of them: a rule's action fires after those of its parts.
 The field open holds every verb-object pair not yet emitted: the saved lists, and on top the current one.
 */
module Machine {
  import opened Terms
  import opened Labels
  import opened Turtle
  import opened Reference

  datatype Machine = Machine(
    element: Term, next: nat, verbs: seq<Term>, mark: nat, subject: Term,
    objects: seq<Term>, outer: seq<seq<Term>>, open: seq<seq<Pair>>, firstList: Term, queue: seq<Triple>)

  function Top<T>(stack: seq<T>): T
    requires stack != []
  {
    stack[|stack| - 1]
  }

  function Below<T>(stack: seq<T>): (r: seq<T>)
    requires stack != []
    ensures |r| == |stack| - 1
  {
    stack[..|stack| - 1]
  }

  /** Adds pairs to the current list. */
  function AddTop(open: seq<seq<Pair>>, pairs: seq<Pair>): (r: seq<seq<Pair>>)
    requires open != []
    ensures |r| == |open|
  {
    Below(open) + [Top(open) + pairs]
  }

  /** Leaves the current list: the last saved one returns, or an empty one if none is saved. */
  function Close(open: seq<seq<Pair>>): (r: seq<seq<Pair>>)
    requires open != []
    ensures r != []
  {
    if |open| == 1 then [[]] else Below(open)
  }

  /** True exactly when the verb before the coming one was pushed one level further out. */
  predicate WillSave(m: Machine) {
    |m.verbs| == m.mark + 1
  }

  function OpenForVerb(m: Machine): seq<seq<Pair>> {
    if WillSave(m) then m.open + [[]] else m.open
  }

  function PushVerb(m: Machine): Machine {
    m.(verbs := m.verbs + [m.element], mark := |m.verbs|, open := OpenForVerb(m))
  }

  function PushObject(m: Machine): Machine {
    m.(objects := m.objects + [m.element])
  }

  function Begin(m: Machine): Machine {
    m.(outer := m.outer + [m.objects], objects := [])
  }

  function FinishCollection(m: Machine): Machine
    requires m.outer != []
  {
    var list := CollectionMeaning(m.objects, m.next);
    m.(element := list.node, next := list.next, queue := m.queue + list.triples,
       objects := Top(m.outer), outer := Below(m.outer))
  }

  function FinishProperties(m: Machine): Machine
    requires m.outer != [] && m.open != []
  {
    var subject := Generated(m.next);
    m.(element := subject, next := m.next + 1, queue := m.queue + Attribute(subject, Top(m.open)),
       open := Close(m.open), firstList := if |m.open| == 1 then subject else m.firstList,
       objects := Top(m.outer), outer := Below(m.outer))
  }

  function FinishClause(m: Machine): Machine
    requires m.verbs != [] && m.open != []
  {
    m.(verbs := Below(m.verbs), open := AddTop(m.open, PairsOf(Top(m.verbs), m.objects)), objects := [])
  }

  function EmitBody(m: Machine): Machine
    requires m.open != []
  {
    m.(queue := m.queue + Attribute(m.subject, Top(m.open)))
  }

  function ClearStatement(m: Machine): Machine
    requires m.open != []
  {
    m.(mark := 0, objects := [], open := Below(m.open) + [[]])
  }

  /** What every run keeps: no stack is ever popped when empty, and nothing queued is lost. */
  ghost predicate Restores(m: Machine, r: Machine) {
    r.open != [] && r.verbs == m.verbs && r.outer == m.outer && r.subject == m.subject && m.queue <= r.queue
  }

  function RunNode(node: Node, m: Machine): (r: Machine)
    requires m.open != []
    ensures Restores(m, r) && r.objects == m.objects
    decreases node, 1
  {
    match node
    case Given(term) => m.(element := term)
    case Anon => m.(element := Generated(m.next), next := m.next + 1)
    case Collection(items) => FinishCollection(RunNodes(items, Begin(m)))
    case Properties(clauses) => FinishProperties(RunClauses(clauses, Begin(m)))
  }

  function RunNodes(nodes: seq<Node>, m: Machine): (r: Machine)
    requires m.open != []
    ensures Restores(m, r)
    decreases nodes, 0
  {
    if nodes == [] then m else RunNodes(nodes[1..], PushObject(RunNode(nodes[0], m)))
  }

  function RunClause(clause: Clause, m: Machine): (r: Machine)
    requires m.open != []
    ensures Restores(m, r) && r.objects == []
    decreases clause, 0
  {
    FinishClause(RunNodes(clause.objects, PushVerb(m.(element := clause.verb))))
  }

  function RunClauses(clauses: seq<Clause>, m: Machine): (r: Machine)
    requires m.open != []
    ensures Restores(m, r)
    decreases clauses, 0
  {
    if clauses == [] then m else RunClauses(clauses[1..], RunClause(clauses[0], m))
  }

  /** A property list as subject is found again through firstList once the body is read. */
  function RunSubject(node: Node, m: Machine): Machine
    requires m.open != []
  {
    var r := RunNode(node, m);
    if node.Properties? then r else r.(subject := r.element)
  }

  function RunStatement(statement: Statement, m: Machine): Machine
    requires m.open != []
  {
    var body := RunClauses(statement.body, RunSubject(statement.subject, m));
    ClearStatement(EmitBody(if statement.subject.Properties? then body.(subject := body.firstList) else body))
  }
}
