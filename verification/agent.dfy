/**
 * The public entry points of the agent: a blocking query that returns only
 * the answer, and a stream that turns the workflow's events into "step" and
 * "answer_chunk" emissions, emitting each (node, reasoning step) pair once.
 */
module Agent {
  import opened Wrappers
  import opened AgentModels
  import opened Graph

  /** `agent_query`: the result holds only the answer of the run. */
  function AgentQuery(question: string, llm: Llm, fetch: string -> seq<ChunkResult>): (r: map<string, string>)
    ensures r.Keys == {"answer"}
    ensures r["answer"] == Run(CreateInitialState(question), llm, fetch).0.finalAnswer
  {
    map["answer" := Run(CreateInitialState(question), llm, fetch).0.finalAnswer]
  }

  /** What a node-completion event carries: the node's output dict (its reasoning steps) or something else. */
  datatype Output = DictOutput(reasoningSteps: seq<string>) | OtherOutput

  /** What a model-stream event carries. */
  datatype Chunk = AIMessageChunk(content: string) | OtherChunk

  /** One event of the workflow's event stream. */
  datatype Event = Event(name: string, node: string, output: Output, chunk: Chunk)

  /** What the stream yields; the dict's "type" is "step" or "answer_chunk". */
  datatype Emission = Step(step: string, content: string) | AnswerChunk(content: string)

  /** An emission together with the node of the event it came from. */
  datatype Tagged = Tagged(node: string, emission: Emission)

  const StepNodes: set<string> := {"route", "query_rewrite", "retrieve", "grade", "generate", "direct"}

  /** The step type shown for a node. */
  function StepType(node: string): (t: Option<string>)
    ensures node in StepNodes <==> t.Some?
    ensures node == "query_rewrite" ==> t == Some("rewrite")
    ensures node == "generate" || node == "direct" ==> t == Some("generate")
    ensures node in {"route", "retrieve", "grade"} ==> t == Some(node)
  {
    if node == "route" then Some("route")
    else if node == "query_rewrite" then Some("rewrite")
    else if node == "retrieve" then Some("retrieve")
    else if node == "grade" then Some("grade")
    else if node == "generate" || node == "direct" then Some("generate")
    else None
  }

  /** A completion event of one of the six nodes whose output is a dict. */
  predicate IsStepEvent(e: Event) {
    e.name == "on_chain_end" && e.node in StepNodes && e.output.DictOutput?
  }

  /** A model-stream event of the generate or direct node carrying a message chunk. */
  predicate IsChunkEvent(e: Event) {
    e.name == "on_chat_model_stream" && (e.node == "direct" || e.node == "generate") && e.chunk.AIMessageChunk?
  }

  /** The key a step is remembered under: node name, "_", step content. */
  function StepKey(node: string, content: string): string {
    node + "_" + content
  }

  function KeyOf(t: Tagged): string {
    StepKey(t.node, t.emission.content)
  }

  /** No emission's key is among `seen`. */
  predicate FreshKeys(out: seq<Tagged>, seen: set<string>) {
    forall t | t in out :: KeyOf(t) !in seen
  }

  /** No two emissions share a key. */
  predicate DistinctKeys(out: seq<Tagged>) {
    forall i, j | 0 <= i < j < |out| :: KeyOf(out[i]) != KeyOf(out[j])
  }

  /** The reasoning steps of one completion event, in list order, each skipped when its key was seen. */
  function StepEmissions(node: string, steps: seq<string>, seen: set<string>): (r: (seq<Tagged>, set<string>))
    ensures seen <= r.1
    ensures forall t | t in r.0 ::
      t.node == node && t.emission.Step? && t.emission.content in steps && Some(t.emission.step) == StepType(node)
    ensures r.1 == seen + set c | c in steps :: StepKey(node, c)
  {
    if steps == [] then ([], seen)
    else
      var (out, seen1) := StepEmissions(node, steps[..|steps| - 1], seen);
      var c := steps[|steps| - 1];
      assert forall d | d in steps[..|steps| - 1] :: d in steps;
      assert steps == steps[..|steps| - 1] + [c];
      var key := StepKey(node, c);
      if key in seen1 then (out, seen1)
      else
        var st := StepType(node);
        (out + (if st.Some? then [Tagged(node, Step(st.value, c))] else []), seen1 + {key})
  }

  /** What one event adds to the stream, and the keys seen after it. */
  function Process(e: Event, seen: set<string>): (r: (seq<Tagged>, set<string>)) {
    if IsStepEvent(e) then StepEmissions(e.node, e.output.reasoningSteps, seen)
    else if IsChunkEvent(e) then ([Tagged(e.node, AnswerChunk(e.chunk.content))], seen)
    else ([], seen)
  }

  /** The tagged emissions of an event sequence and the keys seen at its end. */
  function Stream(events: seq<Event>): (r: (seq<Tagged>, set<string>)) {
    if events == [] then ([], {})
    else
      var (out, seen) := Stream(events[..|events| - 1]);
      var (more, seen') := Process(events[|events| - 1], seen);
      (out + more, seen')
  }

  function Untag(ts: seq<Tagged>): (es: seq<Emission>)
    ensures |es| == |ts| && forall i | 0 <= i < |ts| :: es[i] == ts[i].emission
  {
    seq(|ts|, i requires 0 <= i < |ts| => ts[i].emission)
  }

  lemma UntagAppend(a: seq<Tagged>, b: seq<Tagged>)
    ensures Untag(a + b) == Untag(a) + Untag(b)
  {
  }

  lemma StreamSnoc(events: seq<Event>, i: int)
    requires 0 <= i < |events|
    ensures Stream(events[..i + 1]) ==
      (Stream(events[..i]).0 + Process(events[i], Stream(events[..i]).1).0, Process(events[i], Stream(events[..i]).1).1)
  {
    assert events[..i + 1][..i] == events[..i];
  }

  lemma StepEmissionsSnoc(node: string, steps: seq<string>, j: int, seen: set<string>)
    requires 0 <= j < |steps|
    ensures var (out, seen1) := StepEmissions(node, steps[..j], seen);
      var key := StepKey(node, steps[j]);
      StepEmissions(node, steps[..j + 1], seen) ==
        if key in seen1 then (out, seen1)
        else (out + (if StepType(node).Some? then [Tagged(node, Step(StepType(node).value, steps[j]))] else []), seen1 + {key})
  {
    assert steps[..j + 1][..j] == steps[..j];
  }

  /**
   * `agent_stream_query` over a finite event list: the emissions, in order,
   * with the set of emitted step keys growing as the stream goes.
   */
  method StreamQuery(events: seq<Event>) returns (out: seq<Emission>)
    ensures out == Untag(Stream(events).0)
  {
    var emittedSteps: set<string> := {};
    out := [];
    var i := 0;
    while i < |events|
      invariant 0 <= i <= |events|
      invariant out == Untag(Stream(events[..i]).0) && emittedSteps == Stream(events[..i]).1
    {
      var event := events[i];
      StreamSnoc(events, i);
      ghost var seen0 := emittedSteps;
      ghost var more := Process(event, seen0).0;
      if event.name == "on_chain_end" && event.node in StepNodes && event.output.DictOutput? {
        var emitted;
        emitted, emittedSteps := EmitSteps(event.node, event.output.reasoningSteps, emittedSteps);
        out := out + emitted;
        assert emitted == Untag(more);
      }
      if event.name == "on_chat_model_stream" && (event.node == "direct" || event.node == "generate") && event.chunk.AIMessageChunk? {
        out := out + [AnswerChunk(event.chunk.content)];
        assert [AnswerChunk(event.chunk.content)] == Untag(more);
      }
      UntagAppend(Stream(events[..i]).0, more);
      i := i + 1;
    }
    assert events[..i] == events;
  }

  /** The inner loop of `agent_stream_query` over the reasoning steps of one completion event. */
  method EmitSteps(node: string, steps: seq<string>, seen: set<string>) returns (emitted: seq<Emission>, seen': set<string>)
    ensures emitted == Untag(StepEmissions(node, steps, seen).0)
    ensures seen' == StepEmissions(node, steps, seen).1
  {
    emitted := [];
    seen' := seen;
    for j := 0 to |steps|
      invariant emitted == Untag(StepEmissions(node, steps[..j], seen).0)
      invariant seen' == StepEmissions(node, steps[..j], seen).1
    {
      var stepContent := steps[j];
      var stepKey := node + "_" + stepContent;
      StepEmissionsSnoc(node, steps, j, seen);
      if stepKey !in seen' {
        seen' := seen' + {stepKey};
        var stepType := StepType(node);
        if stepType.Some? {
          UntagAppend(StepEmissions(node, steps[..j], seen).0, [Tagged(node, Step(stepType.value, stepContent))]);
          emitted := emitted + [Step(stepType.value, stepContent)];
        }
      }
    }
    assert steps[..|steps|] == steps;
  }

  /**
   * Where emissions come from: a step only from a completion event of one of
   * the six nodes with dict output, carrying one of its reasoning steps under
   * the node's step type; an answer chunk only from a model-stream event of
   * generate or direct carrying a message chunk.
   */
  lemma {:induction false} EmissionsHaveSources(events: seq<Event>)
    ensures forall t | t in Stream(events).0 ::
      exists e | e in events :: e.node == t.node &&
        if t.emission.Step? then
          IsStepEvent(e) && t.emission.content in e.output.reasoningSteps && Some(t.emission.step) == StepType(e.node)
        else
          IsChunkEvent(e) && t.emission.content == e.chunk.content
  {
    if events != [] {
      var p := events[..|events| - 1];
      var e := events[|events| - 1];
      EmissionsHaveSources(p);
      assert forall x | x in p :: x in events;
      assert e in events;
    }
  }

  /** The keys seen are the keys of the steps emitted: nothing is remembered without being emitted. */
  lemma {:induction false} SeenIsEmitted(events: seq<Event>)
    ensures Stream(events).1 == set t | t in Stream(events).0 && t.emission.Step? :: KeyOf(t)
  {
    if events != [] {
      var p := events[..|events| - 1];
      var e := events[|events| - 1];
      SeenIsEmitted(p);
      var (out, seen) := Stream(p);
      if IsStepEvent(e) {
        StepEmissionsAreSeen(e.node, e.output.reasoningSteps, seen);
      }
    }
  }

  /** Within one event, every new key is emitted exactly then (the node is one of the six, so it has a step type). */
  lemma {:induction false} StepEmissionsAreSeen(node: string, steps: seq<string>, seen: set<string>)
    requires node in StepNodes
    ensures var (out, seen') := StepEmissions(node, steps, seen);
      seen' == seen + set t | t in out && t.emission.Step? :: KeyOf(t)
  {
    if steps != [] {
      StepEmissionsAreSeen(node, steps[..|steps| - 1], seen);
      var (out, seen1) := StepEmissions(node, steps[..|steps| - 1], seen);
      var c := steps[|steps| - 1];
      if StepKey(node, c) !in seen1 {
        var t := Tagged(node, Step(StepType(node).value, c));
        assert forall u | u in out + [t] :: u in out || u == t;
        assert KeyOf(t) == StepKey(node, c);
      }
    }
  }

  /** Within one event, every emitted key is new (not in `seen`) and emitted once. */
  lemma {:induction false} StepEmissionsFresh(node: string, steps: seq<string>, seen: set<string>)
    ensures FreshKeys(StepEmissions(node, steps, seen).0, seen)
    ensures DistinctKeys(StepEmissions(node, steps, seen).0)
  {
    if steps != [] {
      var p := steps[..|steps| - 1];
      StepEmissionsFresh(node, p, seen);
      var r := StepEmissions(node, p, seen);
      var out, seen1 := r.0, r.1;
      var c := steps[|steps| - 1];
      assert steps == p + [c];
      if StepKey(node, c) !in seen1 && StepType(node).Some? {
        var t := Tagged(node, Step(StepType(node).value, c));
        assert StepEmissions(node, steps, seen).0 == out + [t];
        forall u | u in out ensures KeyOf(u) in seen1 {
          assert u.emission.content in p;
        }
        FreshSnoc(out, t, seen, seen1);
      } else {
        assert StepEmissions(node, steps, seen).0 == out;
      }
    }
  }

  /** Appending an emission whose key is not yet seen keeps the keys fresh and distinct. */
  lemma FreshSnoc(out: seq<Tagged>, t: Tagged, seen: set<string>, seen1: set<string>)
    requires FreshKeys(out, seen) && DistinctKeys(out)
    requires seen <= seen1 && forall u | u in out :: KeyOf(u) in seen1
    requires KeyOf(t) !in seen1
    ensures FreshKeys(out + [t], seen) && DistinctKeys(out + [t])
  {
    var out' := out + [t];
    forall i, j | 0 <= i < j < |out'| ensures KeyOf(out'[i]) != KeyOf(out'[j]) {
      if j == |out| {
        assert out'[i] in out;
      } else {
        assert out'[i] == out[i] && out'[j] == out[j];
      }
    }
  }

  /** A step for a given key is emitted at most once over the whole stream. */
  lemma {:induction false} StepKeysAreDistinct(events: seq<Event>)
    ensures var out := Stream(events).0;
      forall i, j | 0 <= i < j < |out| && out[i].emission.Step? && out[j].emission.Step? :: KeyOf(out[i]) != KeyOf(out[j])
  {
    if events != [] {
      var p := events[..|events| - 1];
      var e := events[|events| - 1];
      StepKeysAreDistinct(p);
      SeenIsEmitted(p);
      var (out, seen) := Stream(p);
      var (more, seen') := Process(e, seen);
      var all := out + more;
      if IsStepEvent(e) {
        StepEmissionsFresh(e.node, e.output.reasoningSteps, seen);
        forall i, j | 0 <= i < j < |all| && all[i].emission.Step? && all[j].emission.Step?
          ensures KeyOf(all[i]) != KeyOf(all[j])
        {
          if j < |out| {
            assert all[i] == out[i] && all[j] == out[j];
          } else if i < |out| {
            assert all[i] == out[i] && all[j] == more[j - |out|];
            assert all[i] in out;
            assert KeyOf(all[i]) in seen;
            assert more[j - |out|] in more;
          } else {
            assert all[i] == more[i - |out|] && all[j] == more[j - |out|];
          }
        }
      } else {
        assert forall k | |out| <= k < |all| :: !all[k].emission.Step?;
        forall i, j | 0 <= i < j < |all| && all[i].emission.Step? && all[j].emission.Step?
          ensures KeyOf(all[i]) != KeyOf(all[j])
        {
          assert all[i] == out[i] && all[j] == out[j];
        }
      }
    }
  }

  /**
   * Every reasoning step of every step event is emitted: the stream holds a
   * step with that key (exactly one, by `StepKeysAreDistinct`).
   */
  lemma EveryStepIsEmitted(events: seq<Event>, e: Event, c: string)
    requires e in events && IsStepEvent(e) && c in e.output.reasoningSteps
    ensures exists t | t in Stream(events).0 :: t.emission.Step? && KeyOf(t) == StepKey(e.node, c)
  {
    StepKeyIsSeen(events, e, c);
    SeenIsEmitted(events);
  }

  lemma {:induction false} StepKeyIsSeen(events: seq<Event>, e: Event, c: string)
    requires e in events && IsStepEvent(e) && c in e.output.reasoningSteps
    ensures StepKey(e.node, c) in Stream(events).1
  {
    var p := events[..|events| - 1];
    var last := events[|events| - 1];
    var seen := Stream(p).1;
    assert seen <= Process(last, seen).1 by {
      if IsStepEvent(last) {
        var _ := StepEmissions(last.node, last.output.reasoningSteps, seen);
      }
    }
    assert events == p + [last];
    if e != last {
      assert e in p;
      StepKeyIsSeen(p, e, c);
    }
  }

  /** The same content under a different node is emitted again, under that node's step type. */
  lemma SameContentOtherNode()
    ensures var events := [Event("on_chain_end", "route", DictOutput(["x"]), OtherChunk),
                           Event("on_chain_end", "direct", DictOutput(["x"]), OtherChunk)];
      Untag(Stream(events).0) == [Step("route", "x"), Step("generate", "x")]
  {
    var e1 := Event("on_chain_end", "route", DictOutput(["x"]), OtherChunk);
    var e2 := Event("on_chain_end", "direct", DictOutput(["x"]), OtherChunk);
    var events := [e1, e2];
    assert events[..1] == [e1] && [e1][..0] == [];
    assert ["x"][..0] == [];
    assert StepEmissions("route", [], {}) == ([], {});
    assert StepType("route") == Some("route");
    assert StepKey("route", "x") !in {};
    assert StepEmissions("route", ["x"], {}).1 == {StepKey("route", "x")};
    assert StepEmissions("route", ["x"], {}).0 == [Tagged("route", Step("route", "x"))];
    assert StepEmissions("route", ["x"], {}) == ([Tagged("route", Step("route", "x"))], {StepKey("route", "x")});
    assert Stream([e1]) == ([Tagged("route", Step("route", "x"))], {StepKey("route", "x")});
    assert StepKey("route", "x") != StepKey("direct", "x") by {
      assert StepKey("route", "x")[0] == 'r' && StepKey("direct", "x")[0] == 'd';
    }
    assert StepEmissions("direct", ["x"], {StepKey("route", "x")}).0 == [Tagged("direct", Step("generate", "x"))];
  }

  /** A repeated step within one node's output is emitted once. */
  lemma RepeatedStepOnce()
    ensures Untag(Stream([Event("on_chain_end", "grade", DictOutput(["x", "x"]), OtherChunk)]).0) == [Step("grade", "x")]
  {
    var e := Event("on_chain_end", "grade", DictOutput(["x", "x"]), OtherChunk);
    assert [e][..0] == [];
    assert ["x", "x"][..1] == ["x"] && ["x"][..0] == [];
  }

  /** Answer chunks pass through in order; a chunk from another node or of another kind is dropped. */
  lemma ChunksInOrder()
    ensures var events := [Event("on_chat_model_stream", "generate", OtherOutput, AIMessageChunk("a")),
                           Event("on_chat_model_stream", "grade", OtherOutput, AIMessageChunk("b")),
                           Event("on_chat_model_stream", "direct", OtherOutput, OtherChunk),
                           Event("on_chat_model_stream", "direct", OtherOutput, AIMessageChunk("c"))];
      Untag(Stream(events).0) == [AnswerChunk("a"), AnswerChunk("c")]
  {
    var e1 := Event("on_chat_model_stream", "generate", OtherOutput, AIMessageChunk("a"));
    var e2 := Event("on_chat_model_stream", "grade", OtherOutput, AIMessageChunk("b"));
    var e3 := Event("on_chat_model_stream", "direct", OtherOutput, OtherChunk);
    var e4 := Event("on_chat_model_stream", "direct", OtherOutput, AIMessageChunk("c"));
    var events := [e1, e2, e3, e4];
    assert events[..3] == [e1, e2, e3] && [e1, e2, e3][..2] == [e1, e2] && [e1, e2][..1] == [e1] && [e1][..0] == [];
    assert !IsStepEvent(e1) && !IsStepEvent(e2) && !IsStepEvent(e3) && !IsStepEvent(e4);
    assert IsChunkEvent(e1) && !IsChunkEvent(e2) && !IsChunkEvent(e3) && IsChunkEvent(e4);
    assert Stream([e1]).0 == [Tagged("generate", AnswerChunk("a"))];
    assert Stream([e1, e2]).0 == [Tagged("generate", AnswerChunk("a"))];
    assert Stream([e1, e2, e3]).0 == [Tagged("generate", AnswerChunk("a"))];
  }
}
