/**
 Every moment inside a statement: the stack of saved pair lists never holds more entries than there are open
 property lists that saved one, so no entry of a list that has ended stays behind, even for a moment.
 */
module Moments {
  import opened Turtle
  import opened Machine
  import opened StackLaw
  import opened Documents

  /** At this moment: the current list, and at most one saved list for each open property list that saved. */
  ghost predicate AtMost(m: Machine, saved: nat) {
    1 <= |m.open| <= saved + 1
  }

  function SavedNow(m: Machine, saved: nat): nat {
    if WillSave(m) then saved + 1 else saved
  }

  /** At every moment from reading the node's first part to reading its last, and after it. */
  ghost predicate NodeKeeps(node: Node, m: Machine, saved: nat)
    requires m.open != []
    decreases node, 1
  {
    && AtMost(m, saved)
    && (match node
        case Given(_) => true
        case Anon => true
        case Collection(items) => NodesKeep(items, Begin(m), saved)
        case Properties(clauses) => ClausesKeep(clauses, Begin(m), saved))
    && AtMost(RunNode(node, m), saved)
  }

  ghost predicate NodesKeep(nodes: seq<Node>, m: Machine, saved: nat)
    requires m.open != []
    decreases nodes, 0
  {
    && AtMost(m, saved)
    && (nodes == []
        || (NodeKeeps(nodes[0], m, saved) && NodesKeep(nodes[1..], PushObject(RunNode(nodes[0], m)), saved)))
  }

  /** A verb may save, and then one more list has saved until its property list ends. */
  ghost predicate ClausesKeep(clauses: seq<Clause>, m: Machine, saved: nat)
    requires m.open != []
    decreases clauses, 0
  {
    && AtMost(m, saved)
    && (clauses == []
        || (NodesKeep(clauses[0].objects, PushVerb(m.(element := clauses[0].verb)), SavedNow(m, saved))
            && ClausesKeep(clauses[1..], RunClause(clauses[0], m), SavedNow(m, saved))))
  }

  ghost predicate StatementKeeps(statement: Statement, m: Machine)
    requires m.open != []
  {
    && NodeKeeps(statement.subject, m, 0)
    && ClausesKeep(statement.body, RunSubject(statement.subject, m), 0)
    && AtMost(RunStatement(statement, m), 0)
  }

  lemma {:induction false} NodeNeverDeeper(node: Node, m: Machine, saved: nat)
    requires DerivableNode(node) && Ready(m) && AtMost(m, saved)
    ensures NodeKeeps(node, m, saved)
    decreases node, 1
  {
    RunNodeLaw(node, m);
    match node
    case Given(_) =>
    case Anon =>
    case Collection(items) => NodesNeverDeeper(items, Begin(m), saved);
    case Properties(clauses) => ClausesNeverDeeper(clauses, Begin(m), saved);
  }

  lemma {:induction false} NodesNeverDeeper(nodes: seq<Node>, m: Machine, saved: nat)
    requires DerivableNodes(nodes) && Ready(m) && AtMost(m, saved)
    ensures NodesKeep(nodes, m, saved)
    decreases nodes, 0
  {
    if nodes != [] {
      NodeNeverDeeper(nodes[0], m, saved);
      RunNodeLaw(nodes[0], m);
      NodesNeverDeeper(nodes[1..], PushObject(RunNode(nodes[0], m)), saved);
    }
  }

  lemma {:induction false} ClausesNeverDeeper(clauses: seq<Clause>, m: Machine, saved: nat)
    requires DerivableClauses(clauses) && Ready(m) && m.objects == [] && AtMost(m, saved)
    ensures ClausesKeep(clauses, m, saved)
    decreases clauses, 0
  {
    if clauses != [] {
      NodesNeverDeeper(clauses[0].objects, PushVerb(m.(element := clauses[0].verb)), SavedNow(m, saved));
      RunClauseLaw(clauses[0], m);
      ClausesNeverDeeper(clauses[1..], RunClause(clauses[0], m), SavedNow(m, saved));
    }
  }

  ghost predicate DocumentKeeps(document: seq<Statement>, m: Machine)
    requires m.open != []
  {
    document == [] || (StatementKeeps(document[0], m) && DocumentKeeps(document[1..], RunStatement(document[0], m)))
  }

  lemma StatementNeverDeeper(statement: Statement, m: Machine)
    requires DerivableStatement(statement) && Idle(m)
    ensures StatementKeeps(statement, m)
  {
    NodeNeverDeeper(statement.subject, m, 0);
    BodyLaw(statement, m);
    ClausesNeverDeeper(statement.body, RunSubject(statement.subject, m), 0);
    StatementRestoresIdle(statement, m);
  }

  /** Main result: so it is at every moment of a whole document, however its lists are nested. */
  lemma {:induction false} NeverDeeperThanSaved(document: seq<Statement>, m: Machine)
    requires DerivableDocument(document) && Idle(m)
    ensures DocumentKeeps(document, m)
  {
    if document != [] {
      StatementNeverDeeper(document[0], m);
      StatementRestoresIdle(document[0], m);
      NeverDeeperThanSaved(document[1..], RunStatement(document[0], m));
    }
  }
}
