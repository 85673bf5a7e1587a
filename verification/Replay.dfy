/** Tool replay safety of an imported agent graph (examples/agent-memory-graph/local_agent.py). */
module Replay {
  import opened Common

  /** A graph node; absent fields take the defaults of `audit_tool_replay_safety`. */
  datatype Node = Node(
    id: string,
    kind: string,
    sideEffect: Option<string>,
    status: Option<string>,
    resumePolicy: Option<string>,
    approval: Option<string>)

  datatype Entry = Entry(nodeId: string, action: string, safeToImport: bool)

  const PENDING: set<string> := {"not_started", "in_progress", "failed", "needs_user"}
  const MANUAL: set<string> := {"ask_user", "rebind", "compensate"}
  const FINISHED: set<string> := {"completed", "cancelled"}
  const MUTATING: set<string> := {"external_write", "unknown"}
  const HARMLESS: set<string> := {"none", "read_only"}
  const WITHDRAWN: set<string> := {"denied", "expired"}

  function OrElse(value: Option<string>, default: string): string
  {
    if value.Some? then value.value else default
  }

  function SideEffect(n: Node): string { OrElse(n.sideEffect, "unknown") }
  function Status(n: Node): string { OrElse(n.status, "needs_user") }
  function Approval(n: Node): string { OrElse(n.approval, "not_required") }

  /** The node's own policy, else the graph's default, else asking the user. */
  function Policy(n: Node, graphDefault: Option<string>): string
  {
    OrElse(n.resumePolicy, OrElse(graphDefault, "ask_user"))
  }

  /** A tool call that may be imported, stated without the audit's cascade of updates. */
  predicate Safe(n: Node, graphDefault: Option<string>)
  {
    && (SideEffect(n) in MUTATING && Status(n) !in FINISHED ==> Policy(n, graphDefault) in MANUAL)
    && (SideEffect(n) in MUTATING && Status(n) in FINISHED ==> Policy(n, graphDefault) != "retry_safe")
    && !(Approval(n) in WITHDRAWN && Status(n) in PENDING)
  }

  /** A tool call the target may run again by itself. */
  predicate RetriesAutomatically(n: Node, graphDefault: Option<string>)
  {
    && Status(n) !in FINISHED
    && SideEffect(n) in HARMLESS
    && Policy(n, graphDefault) == "retry_safe"
    && !(Approval(n) in WITHDRAWN && Status(n) in PENDING)
  }

  /** The audit's answer for a tool call, as one rule. */
  function Action(n: Node, graphDefault: Option<string>): string
  {
    if !Safe(n, graphDefault) then "reject"
    else if Status(n) in FINISHED then "no_replay"
    else if RetriesAutomatically(n, graphDefault) then "retry_allowed"
    else if SideEffect(n) !in MUTATING then "manual_review"
    else if Policy(n, graphDefault) == "ask_user" then "requires_user"
    else Policy(n, graphDefault) + "_required"
  }

  function Verdict(n: Node, graphDefault: Option<string>): Entry
  {
    Entry(n.id, Action(n, graphDefault), Safe(n, graphDefault))
  }

  /** Absent fields: an unknown side effect, a status that needs the user, the graph's policy and else asking, no approval. */
  lemma DefaultsExactly(n: Node, graphDefault: Option<string>)
    ensures SideEffect(n) == match n.sideEffect case Some(s) => s case None => "unknown"
    ensures Status(n) == match n.status case Some(s) => s case None => "needs_user"
    ensures Approval(n) == match n.approval case Some(a) => a case None => "not_required"
    ensures n.resumePolicy.Some? ==> Policy(n, graphDefault) == n.resumePolicy.value
    ensures n.resumePolicy.None? ==> Policy(n, graphDefault) == match graphDefault case Some(p) => p case None => "ask_user"
  {
  }

  /** Which tool calls may be imported, by their side effect, status, policy and approval. */
  lemma SafeExactly(n: Node, graphDefault: Option<string>)
    ensures var effect, status, policy := SideEffect(n), Status(n), Policy(n, graphDefault);
            var finished := status in {"completed", "cancelled"};
            Safe(n, graphDefault) <==>
              && (effect in {"external_write", "unknown"} ==>
                    if finished then policy != "retry_safe" else policy in {"ask_user", "rebind", "compensate"})
              && (Approval(n) in {"denied", "expired"} ==> status !in {"not_started", "in_progress", "failed", "needs_user"})
  {
  }

  /** Which of them the target runs again by itself: open ones without lasting effect that say so and may still run. */
  lemma RetriesExactly(n: Node, graphDefault: Option<string>)
    ensures RetriesAutomatically(n, graphDefault) <==>
              && Status(n) !in {"completed", "cancelled"} && SideEffect(n) in {"none", "read_only"}
              && Policy(n, graphDefault) == "retry_safe"
              && (Approval(n) in {"denied", "expired"} ==> Status(n) !in {"not_started", "in_progress", "failed", "needs_user"})
  {
  }

  /** The loop body of the audit: an entry, updated by each rule that applies. */
  method AuditNode(n: Node, graphDefault: Option<string>) returns (e: Entry)
    ensures e == Verdict(n, graphDefault)
    ensures e.nodeId == n.id && (e.safeToImport <==> Safe(n, graphDefault))
    ensures Safe(n, graphDefault) && Status(n) !in {"completed", "cancelled"} && !RetriesAutomatically(n, graphDefault) ==>
              e.action == if SideEffect(n) !in {"external_write", "unknown"} then "manual_review"
                          else if Policy(n, graphDefault) == "ask_user" then "requires_user" else Policy(n, graphDefault) + "_required"
    ensures e.action == "retry_allowed" <==> RetriesAutomatically(n, graphDefault)
    ensures e.action == "no_replay" <==> Status(n) in FINISHED && Safe(n, graphDefault)
    ensures e.action == "reject" <==> !Safe(n, graphDefault)
  {
    var sideEffect, status, approval := SideEffect(n), Status(n), Approval(n);
    var policy := Policy(n, graphDefault);
    e := Entry(n.id, "manual_review", true);
    if status in FINISHED {
      e := e.(action := "no_replay", safeToImport := true);
      if sideEffect in MUTATING && policy == "retry_safe" {
        e := e.(action := "reject", safeToImport := false);
      }
    } else if sideEffect in HARMLESS && policy == "retry_safe" {
      e := e.(action := "retry_allowed", safeToImport := true);
    } else if sideEffect in MUTATING {
      if policy in MANUAL {
        e := e.(action := if policy == "ask_user" then "requires_user" else policy + "_required", safeToImport := true);
      } else {
        e := e.(action := "reject", safeToImport := false);
      }
    } else if status in PENDING {
      e := e.(action := "manual_review", safeToImport := true);
    }
    if approval in WITHDRAWN && status in PENDING {
      e := e.(action := "reject", safeToImport := false);
    }
    assert |"no_replay"| == 9 && |"retry_allowed"| == 13 && |"requires_user"| == 13 && |"reject"| == 6;
    assert "requires_user"[2] == 'q' && "retry_allowed"[2] == 't';
    assert |"rebind_required"| == 15 && |"compensate_required"| == 19;
  }

  predicate IsToolCall(n: Node) { n.kind == "tool_call" }

  /** What `reject_unsafe_tool_replay` lets through: every tool call of the graph is safe. */
  predicate Importable(nodes: seq<Node>, graphDefault: Option<string>)
  {
    forall i | 0 <= i < |nodes| :: IsToolCall(nodes[i]) ==> Safe(nodes[i], graphDefault)
  }

  /** The first node with an id, as `node_by_id` finds it. */
  predicate FirstWith(nodes: seq<Node>, id: string, i: int)
  {
    0 <= i < |nodes| && nodes[i].id == id && forall j | 0 <= j < i :: nodes[j].id != id
  }

  function Completed(n: Node, approval: string): Node
  {
    n.(status := Some("completed"), approval := Some(approval))
  }

  /** The nodes after marking a tool call completed: the first node with the id changes, if it is a tool call. */
  ghost predicate Marks(before: seq<Node>, id: string, approval: string, after: seq<Node>)
  {
    && |after| == |before|
    && forall i | 0 <= i < |before| ::
         after[i] == if FirstWith(before, id, i) && IsToolCall(before[i]) then Completed(before[i], approval) else before[i]
  }

  /** One entry per tool call, in node order. */
  function Audit(nodes: seq<Node>, graphDefault: Option<string>): seq<Entry>
  {
    if nodes == [] then []
    else
      Audit(nodes[..|nodes| - 1], graphDefault)
      + (if IsToolCall(nodes[|nodes| - 1]) then [Verdict(nodes[|nodes| - 1], graphDefault)] else [])
  }

  /** The audit's entries are the verdicts on the tool calls. */
  lemma {:induction false} AuditMembers(nodes: seq<Node>, graphDefault: Option<string>, e: Entry)
    ensures e in Audit(nodes, graphDefault) <==> exists n <- nodes :: IsToolCall(n) && e == Verdict(n, graphDefault)
  {
    hide Verdict;
    if nodes == [] {
    } else {
      var front, last := nodes[..|nodes| - 1], nodes[|nodes| - 1];
      AuditMembers(front, graphDefault, e);
      assert nodes == front + [last];
    }
  }

  lemma AuditIsSafe(nodes: seq<Node>, graphDefault: Option<string>)
    ensures (forall e <- Audit(nodes, graphDefault) :: e.safeToImport) <==> Importable(nodes, graphDefault)
  {
    hide Safe, Action;
    forall i | 0 <= i < |nodes| && IsToolCall(nodes[i])
      ensures Verdict(nodes[i], graphDefault) in Audit(nodes, graphDefault)
    {
      AuditMembers(nodes, graphDefault, Verdict(nodes[i], graphDefault));
    }
    forall e <- Audit(nodes, graphDefault)
      ensures exists n <- nodes :: IsToolCall(n) && e == Verdict(n, graphDefault)
    {
      AuditMembers(nodes, graphDefault, e);
    }
    if Importable(nodes, graphDefault) {
      forall e <- Audit(nodes, graphDefault)
        ensures e.safeToImport
      {
        var n :| n in nodes && IsToolCall(n) && e == Verdict(n, graphDefault);
      }
    }
  }

  class AgentGraph {
    var nodes: seq<Node>
    const graphDefault: Option<string>

    constructor (nodes: seq<Node>, graphDefault: Option<string>)
      ensures this.nodes == nodes && this.graphDefault == graphDefault
    {
      this.nodes, this.graphDefault := nodes, graphDefault;
    }

    method AuditToolReplaySafety() returns (audit: seq<Entry>)
      ensures audit == Audit(nodes, graphDefault)
      ensures (forall e <- audit :: e.safeToImport) <==> Importable(nodes, graphDefault)
    {
      hide Verdict;
      audit := [];
      for i := 0 to |nodes|
        invariant audit == Audit(nodes[..i], graphDefault)
      {
        assert nodes[..i + 1][..i] == nodes[..i];
        if IsToolCall(nodes[i]) {
          var e := AuditNode(nodes[i], graphDefault);
          audit := audit + [e];
        }
      }
      assert nodes[..|nodes|] == nodes;
      AuditIsSafe(nodes, graphDefault);
    }

    method ImportAllowed() returns (ok: bool)
      ensures ok <==> Importable(nodes, graphDefault)
    {
      var audit := AuditToolReplaySafety();
      ok := true;
      for i := 0 to |audit|
        invariant ok <==> forall j | 0 <= j < i :: audit[j].safeToImport
      {
        if !audit[i].safeToImport {
          ok := false;
        }
      }
    }

    method MarkToolCallCompleted(id: string, approval: string) returns (ok: bool)
      modifies this
      ensures Marks(old(nodes), id, approval, nodes)
      ensures ok ==> exists i | 0 <= i < |old(nodes)| ::
                && old(nodes)[i].id == id && old(nodes)[i].kind == "tool_call" && (forall j | 0 <= j < i :: old(nodes)[j].id != id)
                && nodes == old(nodes)[i := old(nodes)[i].(status := Some("completed"), approval := Some(approval))]
      ensures !ok ==> nodes == old(nodes)
      ensures ok <==> exists i :: FirstWith(old(nodes), id, i) && IsToolCall(old(nodes)[i])
    {
      for i := 0 to |nodes|
        invariant nodes == old(nodes)
        invariant forall j | 0 <= j < i :: nodes[j].id != id
      {
        if nodes[i].id == id {
          assert FirstWith(nodes, id, i);
          if !IsToolCall(nodes[i]) {
            return false;
          }
          nodes := nodes[i := nodes[i].(status := Some("completed"), approval := Some(approval))];
          return true;
        }
      }
      return false;
    }
  }

  /** A finished call in an importable graph stays finished and importable when any call completes. */
  lemma MarkKeepsImportable(before: seq<Node>, id: string, approval: string, after: seq<Node>, graphDefault: Option<string>)
    requires Marks(before, id, approval, after) && Importable(before, graphDefault)
    ensures Importable(after, graphDefault)
    ensures forall i | 0 <= i < |before| :: Status(before[i]) == "completed" ==> Status(after[i]) == "completed"
  {
  }

  /** A run of completions: each state marks one call of the one before. */
  ghost predicate Completions(run: seq<seq<Node>>, marks: seq<(string, string)>)
  {
    && |run| == |marks| + 1
    && forall k | 0 <= k < |marks| :: Marks(run[k], marks[k].0, marks[k].1, run[k + 1])
  }

  /** The completed calls of one state of a run are the same calls, completed, in every later one. */
  lemma {:induction false} StaysCompleted(run: seq<seq<Node>>, marks: seq<(string, string)>, graphDefault: Option<string>, j: nat, k: nat)
    requires Completions(run, marks) && Importable(run[0], graphDefault) && j <= k < |run|
    ensures Importable(run[k], graphDefault) && |run[k]| == |run[j]|
    ensures forall i | 0 <= i < |run[j]| && Status(run[j][i]) == "completed" ::
              run[k][i].id == run[j][i].id && run[k][i].kind == run[j][i].kind && Status(run[k][i]) == "completed"
    decreases k
  {
    if k == 0 {
    } else {
      StaysCompleted(run, marks, graphDefault, if j < k then j else k - 1, k - 1);
      MarkKeepsImportable(run[k - 1], marks[k - 1].0, marks[k - 1].1, run[k], graphDefault);
    }
  }

  /**
   Once importable, a graph stays importable through every sequence of completions, and from its completion on, whether it
   came completed or was marked on the way, a tool call is no_replay in the audit of every later graph.
   */
  lemma ClosedUnderResume(run: seq<seq<Node>>, marks: seq<(string, string)>, graphDefault: Option<string>, j: nat, k: nat)
    requires Completions(run, marks) && Importable(run[0], graphDefault) && j <= k < |run|
    ensures forall e <- Audit(run[k], graphDefault) :: e.safeToImport
    ensures forall i | 0 <= i < |run[j]| && IsToolCall(run[j][i]) && Status(run[j][i]) == "completed" ::
              Entry(run[j][i].id, "no_replay", true) in Audit(run[k], graphDefault)
    ensures j < k ==> forall i | FirstWith(run[j], marks[j].0, i) && IsToolCall(run[j][i]) ::
              Entry(marks[j].0, "no_replay", true) in Audit(run[k], graphDefault)
  {
    AuditIsSafe(run[k], graphDefault);
    CompletedAreNotReplayed(run, marks, graphDefault, j, k);
    if j < k {
      CompletedAreNotReplayed(run, marks, graphDefault, j + 1, k);
      assert Marks(run[j], marks[j].0, marks[j].1, run[j + 1]);
      forall i | FirstWith(run[j], marks[j].0, i) && IsToolCall(run[j][i])
        ensures Entry(marks[j].0, "no_replay", true) in Audit(run[k], graphDefault)
      {
        assert run[j + 1][i] == Completed(run[j][i], marks[j].1);
      }
    }
  }

  lemma CompletedAreNotReplayed(run: seq<seq<Node>>, marks: seq<(string, string)>, graphDefault: Option<string>, j: nat, k: nat)
    requires Completions(run, marks) && Importable(run[0], graphDefault) && j <= k < |run|
    ensures Importable(run[k], graphDefault)
    ensures forall i | 0 <= i < |run[j]| && IsToolCall(run[j][i]) && Status(run[j][i]) == "completed" ::
              Entry(run[j][i].id, "no_replay", true) in Audit(run[k], graphDefault)
  {
    StaysCompleted(run, marks, graphDefault, j, k);
    forall i | 0 <= i < |run[j]| && IsToolCall(run[j][i]) && Status(run[j][i]) == "completed"
      ensures Entry(run[j][i].id, "no_replay", true) in Audit(run[k], graphDefault)
    {
      var n := run[k][i];
      assert Verdict(n, graphDefault) == Entry(n.id, "no_replay", true);
      AuditMembers(run[k], graphDefault, Verdict(n, graphDefault));
    }
  }

  /**
   No mutating call retries by itself, with its own policy or the graph's default; and in an importable graph such a
   call that is still open waits for the user, a rebind or a compensation.
   */
  lemma MutatingCallsWait(n: Node, graphDefault: Option<string>)
    requires SideEffect(n) in MUTATING
    ensures !RetriesAutomatically(n, graphDefault)
    ensures Safe(n, graphDefault) && Status(n) !in FINISHED ==> Policy(n, graphDefault) in {"ask_user", "rebind", "compensate"}
    ensures n.resumePolicy == None && graphDefault == Some("retry_safe") ==> !Safe(n, graphDefault)
  {
    assert "external_write" !in HARMLESS && "unknown" !in HARMLESS by {
      assert "none"[0] == 'n' && "read_only"[0] == 'r' && "external_write"[0] == 'e' && "unknown"[0] == 'u';
    }
    assert "retry_safe" !in MANUAL by {
      assert |"retry_safe"| == 10 && |"ask_user"| == 8 && |"rebind"| == 6 && "retry_safe"[0] == 'r' && "compensate"[0] == 'c';
    }
  }
}
