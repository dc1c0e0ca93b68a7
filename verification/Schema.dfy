/** The schema itself: every collection with its key columns and references. */
module Schema {
  import opened Relational
  import opened Migration

  const TO_AGENT := Reference("agents", "id")
  const TO_PROJECT := Reference("projects", "project_id")
  const TO_TASK := Reference("tasks", "task_id")

  // A collection and its specification; every table is named like its collection.
  datatype Entry = Entry(name: string, keys: seq<string>, fks: map<string, Reference>)

  // The collections nothing refers to.
  const LEAVES: seq<Entry> := [
    Entry("agent_instances", ["agent_id"], map["agent_id" := TO_AGENT]),
    Entry("skills", ["id"], map[]),
    Entry("tools", ["name"], map[]),
    Entry("mcp", ["name"], map[]),
    Entry("models", ["id"], map[]),
    Entry("apis", ["api"], map[]),
    Entry("events", ["event_id"], map["project_id" := TO_PROJECT, "agent_id" := TO_AGENT]),
    Entry("audit", ["audit_id"], map["project_id" := TO_PROJECT, "task_id" := TO_TASK, "agent_id" := TO_AGENT]),
    Entry("memory", ["memory_id"], map[]),
    Entry("memory_links", ["link_id"], map[]),
    Entry("approvals", ["approval_id"], map["project_id" := TO_PROJECT, "task_id" := TO_TASK, "agent_id" := TO_AGENT]),
    Entry("budgets", ["scope", "scope_id"], map[]),
    Entry("messages", ["message_id"], map["project_id" := TO_PROJECT]),
    Entry("decisions", ["decision_id"], map["project_id" := TO_PROJECT]),
    Entry("evaluations", ["eval_id"], map[]),
    Entry("eval_runs", ["run_id"], map[]),
    Entry("performance", ["agent_id", "window"], map["agent_id" := TO_AGENT]),
    Entry("traces", ["span_id"], map[]),
    Entry("workflows", ["workflow_id"], map[]),
    Entry("workspaces", ["workspace_id"],
      map["project_id" := TO_PROJECT, "task_id" := TO_TASK, "agent_id" := TO_AGENT]),
    Entry("checkpoints", ["thread_id", "checkpoint_ns", "checkpoint_id"], map[]),
    Entry("checkpoint_latest", ["thread_id"], map[]),
    Entry("policy_control", ["key"], map[]),
    Entry("schedules", ["schedule_id"], map["project_id" := TO_PROJECT])
  ]

  function SpecOf(e: Entry): Spec {
    Spec(e.name, e.keys, e.fks)
  }

  predicate IsCore(c: string) {
    c == "agents" || c == "projects" || c == "tasks"
  }

  // The three collections others refer to, and the given ones.
  function WithLeaves(leaves: seq<Entry>): (schema: Schema)
    ensures "agents" in schema && schema["agents"] == SpecOf(Entry("agents", ["id"], map[]))
    ensures "projects" in schema && schema["projects"] == SpecOf(Entry("projects", ["project_id"], map[]))
    ensures "tasks" in schema
         && schema["tasks"]
            == SpecOf(Entry("tasks", ["task_id"], map["project_id" := TO_PROJECT, "assigned_agent" := TO_AGENT]))
    ensures forall i :: 0 <= i < |leaves| ==> leaves[i].name in schema
  {
    if leaves == [] then
      map["agents" := SpecOf(Entry("agents", ["id"], map[])),
          "projects" := SpecOf(Entry("projects", ["project_id"], map[])),
          "tasks" := SpecOf(Entry("tasks", ["task_id"], map["project_id" := TO_PROJECT, "assigned_agent" := TO_AGENT]))]
    else
      var last := leaves[|leaves| - 1];
      var rest := WithLeaves(leaves[..|leaves| - 1]);
      if last.name in rest then rest else rest[last.name := SpecOf(last)]
  }

  const SCHEMA := WithLeaves(LEAVES)

  // Refers, if at all, to agents, projects or tasks.
  predicate IsLeaf(e: Entry) {
    e.keys != [] && !IsCore(e.name)
    && forall column :: column in e.fks ==>
       e.fks[column] == TO_AGENT || e.fks[column] == TO_PROJECT || e.fks[column] == TO_TASK
  }

  function Rank(c: string): nat {
    if IsCore(c) then (if c == "tasks" then 1 else 0) else 2
  }

  // A collection's references are among the three, and lead to lower ranks.
  predicate LeadsDown(c: string, spec: Spec) {
    spec.table == c && spec.keys != []
    && forall column :: column in spec.fks ==>
         (spec.fks[column] == TO_AGENT || spec.fks[column] == TO_PROJECT || spec.fks[column] == TO_TASK)
         && Rank(spec.fks[column].table) < Rank(c)
  }

  lemma LeafLeadsDown(e: Entry)
    requires IsLeaf(e)
    ensures LeadsDown(e.name, SpecOf(e))
  {
  }

  lemma CoreLeadsDown()
    ensures LeadsDown("agents", SpecOf(Entry("agents", ["id"], map[])))
    ensures LeadsDown("projects", SpecOf(Entry("projects", ["project_id"], map[])))
    ensures LeadsDown("tasks",
      SpecOf(Entry("tasks", ["task_id"], map["project_id" := TO_PROJECT, "assigned_agent" := TO_AGENT])))
  {
  }

  lemma {:induction false} EveryCollectionLeadsDown(leaves: seq<Entry>, c: string)
    requires forall i :: 0 <= i < |leaves| ==> IsLeaf(leaves[i])
    requires c in WithLeaves(leaves)
    ensures LeadsDown(c, WithLeaves(leaves)[c])
  {
    if leaves == [] {
      CoreLeadsDown();
    } else {
      var last := leaves[|leaves| - 1];
      if c in WithLeaves(leaves[..|leaves| - 1]) {
        EveryCollectionLeadsDown(leaves[..|leaves| - 1], c);
      } else {
        LeafLeadsDown(last);
      }
    }
  }

  lemma DownwardIsAcyclic(schema: Schema)
    requires forall c :: c in schema ==> LeadsDown(c, schema[c])
    requires PointsTo(schema, TO_AGENT, "agents") && PointsTo(schema, TO_PROJECT, "projects")
      && PointsTo(schema, TO_TASK, "tasks")
    ensures Acyclic(schema) && WellFormed(schema)
  {
    var rank := c => Rank(c);
    forall c, d | c in schema && d in Targets(schema, c) ensures rank(d) < rank(c) {
      assert PointsAt(schema, schema[c].fks, d) && LeadsDown(c, schema[c]);
    }
    assert Ranked(schema, rank);
    forall c, column | c in schema && column in schema[c].fks
      ensures exists d :: PointsTo(schema, schema[c].fks[column], d)
    {
      assert LeadsDown(c, schema[c]);
    }
  }

  lemma LeavesMakeNoCycle(leaves: seq<Entry>)
    requires forall i :: 0 <= i < |leaves| ==> IsLeaf(leaves[i])
    ensures Acyclic(WithLeaves(leaves)) && WellFormed(WithLeaves(leaves))
  {
    forall c | c in WithLeaves(leaves) ensures LeadsDown(c, WithLeaves(leaves)[c]) {
      EveryCollectionLeadsDown(leaves, c);
    }
    DownwardIsAcyclic(WithLeaves(leaves));
  }

  /** The migration theorems apply to the schema in use: its references form no
    * cycle, and each names the single key column of an existing table. */
  lemma SchemaIsAcyclicAndWellFormed()
    ensures Acyclic(SCHEMA) && WellFormed(SCHEMA)
  {
    assert forall i :: 0 <= i < |LEAVES| ==> IsLeaf(LEAVES[i]);
    LeavesMakeNoCycle(LEAVES);
  }
}
