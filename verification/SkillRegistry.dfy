/** Skills and what they depend on. */
module SkillRegistry {
  import opened Sequences

  datatype Skill = Skill(enabled: bool, dependencies: seq<string>)
  type Skills = map<string, Skill>

  predicate Enabled(skills: Skills, id: string) {
    id in skills && skills[id].enabled
  }

  predicate DependsOn(skills: Skills, id: string, other: string) {
    id in skills && other in skills[id].dependencies
  }

  // A chain of enabled skills, each a dependency of the one before, from a requested one.
  ghost predicate Path(skills: Skills, requested: seq<string>, path: seq<string>) {
    path != [] && path[0] in requested
    && (forall i :: 0 <= i < |path| ==> path[i] in skills && skills[path[i]].enabled)
    && forall i, j :: 0 <= i && j == i + 1 < |path| ==> DependsOn(skills, path[i], path[j])
  }

  ghost predicate Reachable(skills: Skills, requested: seq<string>, id: string) {
    exists path :: Path(skills, requested, path) && path[|path| - 1] == id
  }

  // Whatever is asked for, directly or by a skill found, is found or waiting.
  ghost predicate Pending(skills: Skills, requested: seq<string>, out: seq<string>, queue: seq<string>) {
    (forall id :: id in requested && Enabled(skills, id) ==> id in out || id in queue)
    && forall id, other :: id in out && DependsOn(skills, id, other) && Enabled(skills, other) ==>
       other in out || other in queue
  }

  // Nothing waits that was not asked for.
  ghost predicate Asked(skills: Skills, requested: seq<string>, out: seq<string>, queue: seq<string>) {
    forall id :: id in queue ==> id in requested || exists byId :: byId in out && DependsOn(skills, byId, id)
  }

  ghost predicate Found(skills: Skills, requested: seq<string>, out: seq<string>) {
    Distinct(out) && forall id :: id in out ==> Reachable(skills, requested, id)
  }

  lemma FoundNext(skills: Skills, requested: seq<string>, out: seq<string>, queue: seq<string>)
    requires queue != [] && Found(skills, requested, out) && Asked(skills, requested, out, queue)
    requires queue[0] !in out && Enabled(skills, queue[0])
    ensures Found(skills, requested, out + [queue[0]])
  {
    var id := queue[0];
    assert Reachable(skills, requested, id) by {
      assert id in queue;
      if id in requested {
        assert Path(skills, requested, [id]);
      } else {
        var byId :| byId in out && DependsOn(skills, byId, id);
        var path :| Path(skills, requested, path) && path[|path| - 1] == byId;
        assert Path(skills, requested, path + [id]);
        assert (path + [id])[|path|] == id;
      }
    }
  }

  lemma {:induction false} PathIsFound(skills: Skills, requested: seq<string>, out: seq<string>, path: seq<string>)
    requires Pending(skills, requested, out, []) && Path(skills, requested, path)
    ensures path[|path| - 1] in out
    decreases |path|
  {
    var n := |path| - 1;
    if n > 0 {
      var before := path[..n];
      assert Path(skills, requested, before);
      PathIsFound(skills, requested, out, before);
      assert DependsOn(skills, path[n - 1], path[n]);
    } else {
      assert path[0] in requested && Enabled(skills, path[0]);
    }
  }

  /** The requested skills with everything they depend on: exactly the enabled skills
    * reachable through enabled skills, each once. Ends on every dependency graph,
    * with cycles and with ids that name no skill. */
  method ResolveDependencies(skills: Skills, requested: seq<string>) returns (out: seq<string>)
    ensures Distinct(out) && forall id :: id in out <==> Reachable(skills, requested, id)
  {
    out := [];
    var queue := requested;
    ghost var left := skills.Keys;
    while queue != []
      invariant Found(skills, requested, out) && Pending(skills, requested, out, queue)
        && Asked(skills, requested, out, queue)
      invariant left == skills.Keys - set id | id in out
      decreases |left|, |queue|
    {
      var id := queue[0];
      var rest := queue[1..];
      if id in out || id !in skills || !skills[id].enabled {
        queue := rest;
        continue;
      }
      FoundNext(skills, requested, out, queue);
      Expand(skills, requested, out, queue);
      out := out + [id];
      queue := rest + skills[id].dependencies;
      assert id in left;
      left := left - {id};
    }
    forall id ensures id in out <==> Reachable(skills, requested, id) {
      if Reachable(skills, requested, id) {
        var path :| Path(skills, requested, path) && path[|path| - 1] == id;
        PathIsFound(skills, requested, out, path);
      }
    }
  }

  lemma Expand(skills: Skills, requested: seq<string>, out: seq<string>, queue: seq<string>)
    requires queue != [] && Enabled(skills, queue[0])
    requires Pending(skills, requested, out, queue) && Asked(skills, requested, out, queue)
    ensures var more := queue[1..] + skills[queue[0]].dependencies;
      Pending(skills, requested, out + [queue[0]], more) && Asked(skills, requested, out + [queue[0]], more)
  {
    var after := out + [queue[0]];
    forall id | id in queue[1..] + skills[queue[0]].dependencies
      ensures id in requested || exists byId :: byId in after && DependsOn(skills, byId, id)
    {
      if id in skills[queue[0]].dependencies {
        assert queue[0] in after && DependsOn(skills, queue[0], id);
      } else {
        assert id in queue;
        if id !in requested {
          var byId :| byId in out && DependsOn(skills, byId, id);
          assert byId in after;
        }
      }
    }
  }

  /** Asking again for what was found finds the same skills. */
  lemma ResolutionIsClosed(skills: Skills, requested: seq<string>, found: seq<string>, id: string)
    requires forall x :: x in found <==> Reachable(skills, requested, x)
    ensures Reachable(skills, found, id) <==> Reachable(skills, requested, id)
  {
    if Reachable(skills, found, id) {
      var path :| Path(skills, found, path) && path[|path| - 1] == id;
      var start :| Path(skills, requested, start) && start[|start| - 1] == path[0];
      var whole := start + path[1..];
      forall i, j | 0 <= i && j == i + 1 < |whole| ensures DependsOn(skills, whole[i], whole[j]) {
        if i >= |start| - 1 {
          assert whole[j] == path[j - |start| + 1] && whole[i] == path[i - |start| + 1];
        }
      }
      assert Path(skills, requested, whole);
    }
    if Reachable(skills, requested, id) {
      assert Enabled(skills, id);
      assert Path(skills, found, [id]);
    }
  }
}
