/** The dynamic planner: which stages a goal needs, in which order, and the
  * workflow assembled from them as one linear chain. */
module Planning {
  import opened Wrappers
  import opened Sequences

  datatype Template = Template(name: string, agentRole: string, requiresApproval: bool)

  datatype Stage = Stage(id: string, name: string, agentRole: string, requiresApproval: bool, next: Option<string>)

  datatype Workflow = Workflow(entry: string, stages: seq<Stage>)

  datatype Built = Built(workflow: Workflow) | UnknownStages(ids: seq<string>)

  // Order-preserving removal of repeats (dict.fromkeys).
  function Dedup(ids: seq<string>): (r: seq<string>)
    ensures Distinct(r)
    ensures forall x :: x in r <==> x in ids
    ensures ids != [] ==> r != [] && r[0] == ids[0]
  {
    if ids == [] then []
    else
      var before := Dedup(ids[..|ids| - 1]);
      var last := ids[|ids| - 1];
      assert ids == ids[..|ids| - 1] + [last];
      if last in before then before else before + [last]
  }

  /** The planned stage ids: the explicit marker's list when the goal carries
    * one, otherwise every template or the keyword choice; framed by
    * "understanding" and "report". */
  function PlanStages(
    marker: seq<string>, expandFull: bool, available: seq<string>, byKeyword: seq<string>): (r: seq<string>)
    ensures Distinct(r) && r != [] && r[0] == "understanding" && "report" in r
    ensures "report" !in marker && marker != [] ==> r[|r| - 1] == "report"
    ensures forall x :: x in r <==>
      x == "understanding" || x == "report"
      || x in if marker != [] then marker else if expandFull then available else byKeyword
  {
    var middle :=
      if marker != [] then marker
      else if expandFull then Without(available, {"understanding", "report"})
      else byKeyword;
    var stages := Dedup(["understanding"] + middle);
    if "report" in stages then stages else stages + ["report"]
  }

  function Without(ids: seq<string>, dropped: set<string>): (r: seq<string>)
    ensures forall x :: x in r <==> x in ids && x !in dropped
  {
    if ids == [] then []
    else
      var before, last := Without(ids[..|ids| - 1], dropped), ids[|ids| - 1];
      assert ids == ids[..|ids| - 1] + [last];
      if last in dropped then before else before + [last]
  }

  // The places are those of the first occurrences of r's elements in ids, in order.
  ghost predicate FirstPlaces(ids: seq<string>, r: seq<string>, at: seq<nat>) {
    |at| == |r|
    && (forall j, k :: 0 <= j < k < |at| ==> at[j] < at[k])
    && forall k :: 0 <= k < |at| ==> at[k] < |ids| && ids[at[k]] == r[k] && r[k] !in ids[..at[k]]
  }

  lemma FirstPlacesOneMore(ids: seq<string>, id: string, r: seq<string>, at: seq<nat>)
    requires FirstPlaces(ids, r, at) && forall x :: x in ids ==> x in r
    ensures if id in r then FirstPlaces(ids + [id], r, at) else FirstPlaces(ids + [id], r + [id], at + [|ids|])
  {
    assert forall k :: 0 <= k < |at| ==> (ids + [id])[..at[k]] == ids[..at[k]];
    assert (ids + [id])[..|ids|] == ids;
  }

  lemma {:induction false} DedupKeepsOrder(ids: seq<string>) returns (at: seq<nat>)
    ensures FirstPlaces(ids, Dedup(ids), at)
  {
    at := [];
    if ids != [] {
      var n := |ids| - 1;
      assert ids == ids[..n] + [ids[n]];
      at := DedupKeepsOrder(ids[..n]);
      FirstPlacesOneMore(ids[..n], ids[n], Dedup(ids[..n]), at);
      at := if ids[n] in Dedup(ids[..n]) then at else at + [n];
    }
  }

  // The places of the elements that are not dropped, in order.
  ghost predicate KeptPlaces(ids: seq<string>, dropped: set<string>, at: seq<nat>) {
    (forall j, k :: 0 <= j < k < |at| ==> at[j] < at[k])
    && (forall k :: 0 <= k < |at| ==> at[k] < |ids|)
    && forall i :: 0 <= i < |ids| ==> (ids[i] !in dropped <==> i in at)
  }

  // r holds what ids holds at these places.
  ghost predicate TakenAt(ids: seq<string>, r: seq<string>, at: seq<nat>) {
    |r| == |at| && forall k :: 0 <= k < |at| ==> at[k] < |ids| && r[k] == ids[at[k]]
  }

  lemma TakenOneMore(ids: seq<string>, r: seq<string>, at: seq<nat>)
    requires ids != [] && TakenAt(ids[..|ids| - 1], r, at)
    ensures TakenAt(ids, r, at) && TakenAt(ids, r + [ids[|ids| - 1]], at + [|ids| - 1])
  {
  }

  lemma KeptOneMore(ids: seq<string>, dropped: set<string>, at: seq<nat>)
    requires ids != [] && KeptPlaces(ids[..|ids| - 1], dropped, at)
    ensures KeptPlaces(ids, dropped, if ids[|ids| - 1] in dropped then at else at + [|ids| - 1])
  {
    var n := |ids| - 1;
    var next := if ids[n] in dropped then at else at + [n];
    forall i | 0 <= i < |ids| ensures ids[i] !in dropped <==> i in next {
      assert forall x :: x in at ==> x < n;
      assert i < n ==> ids[..n][i] == ids[i];
    }
  }

  /** What is not dropped stays, in its order and as often as it was there. */
  lemma {:induction false} WithoutKeepsOrder(ids: seq<string>, dropped: set<string>) returns (at: seq<nat>)
    ensures KeptPlaces(ids, dropped, at) && TakenAt(ids, Without(ids, dropped), at)
  {
    at := [];
    if ids != [] {
      var n := |ids| - 1;
      at := WithoutKeepsOrder(ids[..n], dropped);
      TakenOneMore(ids, Without(ids[..n], dropped), at);
      KeptOneMore(ids, dropped, at);
      if ids[n] !in dropped {
        at := at + [n];
      }
    }
  }

  /** The planned stages follow the order of the list they come from: understanding, the
    * marker's stages or all templates but the frame or the keyword choice, report. */
  lemma PlanKeepsOrder(marker: seq<string>, expandFull: bool, available: seq<string>, byKeyword: seq<string>)
    returns (at: seq<nat>, middle: seq<string>)
    ensures var listed := ["understanding"] + middle + ["report"];
      FirstPlaces(listed, PlanStages(marker, expandFull, available, byKeyword), at)
    ensures marker != [] ==> middle == marker
    ensures marker == [] && !expandFull ==> middle == byKeyword
    ensures marker == [] && expandFull ==> middle == Without(available, {"understanding", "report"})
  {
    middle := if marker != [] then marker
              else if expandFull then Without(available, {"understanding", "report"}) else byKeyword;
    var listed := ["understanding"] + middle;
    at := DedupKeepsOrder(listed + ["report"]);
    assert (listed + ["report"])[..|listed|] == listed;
  }

  // Position i of the chain over the chosen ids.
  function ChainStage(chosen: seq<string>, templates: map<string, Template>, i: nat): Stage
    requires i < |chosen| && chosen[i] in templates
  {
    var tpl := templates[chosen[i]];
    Stage(chosen[i], tpl.name, tpl.agentRole, tpl.requiresApproval,
          if i + 1 < |chosen| then Some(chosen[i + 1]) else None)
  }

  function Chain(chosen: seq<string>, templates: map<string, Template>): (r: seq<Stage>)
    requires forall x :: x in chosen ==> x in templates
    ensures |r| == |chosen|
    ensures forall i :: 0 <= i < |r| ==> r[i] == ChainStage(chosen, templates, i)
  {
    seq(|chosen|, i requires 0 <= i < |chosen| => ChainStage(chosen, templates, i))
  }

  /** Every stage takes what it does from its template and leads to the next, the last to
    * none. */
  lemma ChainLinksInOrder(chosen: seq<string>, templates: map<string, Template>, i: nat)
    requires i < |chosen| && forall x :: x in chosen ==> x in templates
    ensures var stage, tpl := Chain(chosen, templates)[i], templates[chosen[i]];
      stage.id == chosen[i] && stage.name == tpl.name && stage.agentRole == tpl.agentRole
      && stage.requiresApproval == tpl.requiresApproval
      && if i == |chosen| - 1 then stage.next == None else stage.next == Some(chosen[i + 1])
  {
  }

  /** Builds the workflow for the given stages, or for the plan when none are
    * given; refuses stages without a template. The list is taken as it is,
    * repeats included. */
  method BuildWorkflow(stages: seq<string>, plan: seq<string>, templates: map<string, Template>) returns (r: Built)
    requires plan != []
    ensures var chosen := if stages != [] then stages else plan;
      if forall x :: x in chosen ==> x in templates
      then r == Built(Workflow(chosen[0], Chain(chosen, templates)))
      else r.UnknownStages? && r.ids != [] && forall x :: x in r.ids <==> x in chosen && x !in templates
  {
    var chosen := if stages != [] then stages else plan;
    var unknown := [];
    for i := 0 to |chosen|
      invariant forall x :: x in unknown ==> x in chosen && x !in templates
      invariant unknown == [] <==> forall k :: 0 <= k < i ==> chosen[k] in templates
      invariant forall k :: 0 <= k < i && chosen[k] !in templates ==> chosen[k] in unknown
    {
      if chosen[i] !in templates {
        unknown := unknown + [chosen[i]];
      }
    }
    if unknown != [] {
      assert unknown[0] in chosen;
      return UnknownStages(unknown);
    }
    var built: seq<Stage> := [];
    for i := 0 to |chosen|
      invariant |built| == i
      invariant forall k :: 0 <= k < i ==> built[k] == ChainStage(chosen, templates, k).(next := None)
    {
      var tpl := templates[chosen[i]];
      built := built + [Stage(chosen[i], tpl.name, tpl.agentRole, tpl.requiresApproval, None)];
    }
    for i := 0 to |built|
      invariant |built| == |chosen|
      invariant forall k :: 0 <= k < i ==> built[k] == ChainStage(chosen, templates, k)
      invariant forall k :: i <= k < |built| ==> built[k] == ChainStage(chosen, templates, k).(next := None)
    {
      if i + 1 < |built| {
        built := built[i := built[i].(next := Some(built[i + 1].id))];
      }
    }
    assert built == Chain(chosen, templates);
    return Built(Workflow(built[0].id, built));
  }
}
