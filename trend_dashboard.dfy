/**
 * Display rules and per-message bookkeeping of the ERP trend dashboard.
 *
 * Four agents (TrendCollector, ContentWriter, SEOOptimizer, FactChecker)
 * take turns in a chat whose messages arrive as a stream. The dashboard
 * keeps, per run, the list of results in arrival order, the latest output
 * of each agent and the indices of the agents seen so far; it colours
 * scores in three bands, gives each agent a status badge, and shows at most
 * 3000 characters of each result.
 */
module TrendDashboard {
  import opened Wrappers

  /** The agents of the team, in turn order. */
  const AgentNames: seq<string> := ["TrendCollector", "ContentWriter", "SEOOptimizer", "FactChecker"]

  // ---------------------------------------------------------------------
  // Colour bands of a score (gauge, bar chart and metric cards)
  // ---------------------------------------------------------------------

  datatype Band = Green | Amber | Red

  /** Green from 80 up, amber from 60 up to 80, red below 60. */
  function BandOf(score: real): (b: Band)
    ensures b == Green <==> score >= 80.0
    ensures b == Amber <==> 60.0 <= score < 80.0
    ensures b == Red <==> score < 60.0
  {
    if score >= 80.0 then Green else if score >= 60.0 then Amber else Red
  }

  function BandColour(b: Band): string {
    match b
    case Green => "#22c55e"
    case Amber => "#f59e0b"
    case Red => "#ef4444"
  }

  /** The colours of the bars of the score chart, one per value, in order. */
  method BarColours(values: seq<int>) returns (colours: seq<string>)
    ensures |colours| == |values|
    ensures forall i :: 0 <= i < |values| ==> colours[i] == BandColour(BandOf(values[i] as real))
  {
    colours := [];
    for i := 0 to |values|
      invariant |colours| == i
      invariant forall k :: 0 <= k < i ==> colours[k] == BandColour(BandOf(values[k] as real))
    {
      var v := values[i];
      if v >= 80 {
        colours := colours + ["#22c55e"];
      } else if v >= 60 {
        colours := colours + ["#f59e0b"];
      } else {
        colours := colours + ["#ef4444"];
      }
    }
  }

  // ---------------------------------------------------------------------
  // Agent status (sidebar badges and workflow chart)
  // ---------------------------------------------------------------------

  datatype Status = Done | Active | Pending

  /** A completed agent is done even when it is also the current one. */
  function StatusOf(i: int, completed: seq<nat>, current: int): (st: Status)
    ensures st == Done <==> i in completed
    ensures st == Active <==> i !in completed && i == current
    ensures st == Pending <==> i !in completed && i != current
  {
    if i in completed then Done else if i == current then Active else Pending
  }

  /** The badge text of the sidebar. */
  function Badge(st: Status): string {
    match st
    case Done => "Done"
    case Active => "Active"
    case Pending => "Pending"
  }

  /** The node colour of the workflow chart. */
  function ChartColour(st: Status): string {
    match st
    case Done => "#22c55e"
    case Active => "#3b82f6"
    case Pending => "#cbd5e1"
  }

  /**
   * The sidebar loop over the agents: one badge per agent, `Done` exactly
   * for the completed ones, and at most one `Active`.
   */
  method SidebarBadges(completed: seq<nat>, current: int) returns (badges: seq<string>)
    ensures |badges| == |AgentNames|
    ensures forall i :: 0 <= i < |badges| ==> badges[i] == Badge(StatusOf(i, completed, current))
    ensures forall i :: 0 <= i < |badges| ==> (badges[i] == "Done" <==> i in completed)
    ensures forall i, j :: 0 <= i < j < |badges| && badges[i] == "Active" ==> badges[j] != "Active"
  {
    badges := [];
    for i := 0 to |AgentNames|
      invariant |badges| == i
      invariant forall k :: 0 <= k < i ==> badges[k] == Badge(StatusOf(k, completed, current))
    {
      if i in completed {
        badges := badges + ["Done"];
      } else if i == current {
        badges := badges + ["Active"];
      } else {
        badges := badges + ["Pending"];
      }
    }
  }

  /**
   * The loop of the workflow chart: one node colour per agent, green for the
   * completed ones, blue for the current one, grey otherwise.
   */
  method WorkflowColours(completed: seq<nat>, current: int) returns (colours: seq<string>)
    ensures |colours| == |AgentNames|
    ensures forall i :: 0 <= i < |colours| ==> colours[i] == ChartColour(StatusOf(i, completed, current))
    ensures forall i :: 0 <= i < |colours| ==> (colours[i] == "#22c55e" <==> i in completed)
    ensures forall i, j :: 0 <= i < j < |colours| && colours[i] == "#3b82f6" ==> colours[j] != "#3b82f6"
  {
    colours := [];
    for i := 0 to |AgentNames|
      invariant |colours| == i
      invariant forall k :: 0 <= k < i ==> colours[k] == ChartColour(StatusOf(k, completed, current))
    {
      if i in completed {
        colours := colours + ["#22c55e"];
      } else if i == current {
        colours := colours + ["#3b82f6"];
      } else {
        colours := colours + ["#cbd5e1"];
      }
    }
  }

  // ---------------------------------------------------------------------
  // Report truncation
  // ---------------------------------------------------------------------

  const DisplayLimit: nat := 3000

  /** The first 3000 characters, followed by `...` exactly when something was cut. */
  function DisplayContent(s: string): (r: string)
    ensures |s| <= DisplayLimit ==> r == s
    ensures |s| > DisplayLimit ==>
              |r| == DisplayLimit + 3 && r[..DisplayLimit] == s[..DisplayLimit] && r[DisplayLimit..] == "..."
    ensures |r| > DisplayLimit <==> |s| > DisplayLimit
  {
    s[..if |s| < DisplayLimit then |s| else DisplayLimit] + (if |s| > DisplayLimit then "..." else "")
  }

  // ---------------------------------------------------------------------
  // The per-message loop of a run
  // ---------------------------------------------------------------------

  /**
   * An item of the team's message stream. Items without a source and a
   * content (such as the final task result) are `OtherEvent`. The clock
   * reading taken when a message is handled travels with it as `stamp`.
   */
  datatype StreamItem = AgentMessage(source: string, content: string, stamp: string) | OtherEvent

  datatype ResultEntry = ResultEntry(agent: string, content: string, timestamp: string)

  /** A message counts when its source and content are non-empty and the source is one of the agents. */
  predicate Accepted(item: StreamItem)
    ensures Accepted(item) <==> item.AgentMessage? && item.content != "" && item.source in AgentNames
  {
    item.AgentMessage? && item.source != "" && item.content != "" && item.source in AgentNames
  }

  /** `agent_names.index(source)`. */
  function AgentIndex(name: string): (i: nat)
    requires name in AgentNames
    ensures i < |AgentNames| && AgentNames[i] == name
  {
    if name == AgentNames[0] then 0
    else if name == AgentNames[1] then 1
    else if name == AgentNames[2] then 2
    else 3
  }

  /** The results list: one entry per accepted message, in arrival order. */
  function Results(stream: seq<StreamItem>): (r: seq<ResultEntry>)
    ensures |r| <= |stream|
    ensures forall k :: 0 <= k < |r| ==> r[k].agent in AgentNames && r[k].content != ""
  {
    if stream == [] then []
    else
      var item := stream[|stream| - 1];
      Results(stream[..|stream| - 1])
        + if Accepted(item) then [ResultEntry(item.source, item.content, item.stamp)] else []
  }

  /** The content of the last accepted message from `agent`, if any. */
  function LatestOutput(stream: seq<StreamItem>, agent: string): (r: Option<string>)
    ensures r.Some? <==> Heard(stream, agent)
    ensures r.Some? ==> agent in AgentNames && r.value != ""
  {
    if stream == [] then None
    else
      var item := stream[|stream| - 1];
      HeardStep(stream);
      if Accepted(item) && item.source == agent then Some(item.content)
      else LatestOutput(stream[..|stream| - 1], agent)
  }

  /** The completed list: agent indices in the order their first message arrived. */
  function FirstSeen(stream: seq<StreamItem>): (r: seq<nat>)
    ensures forall x :: x in r ==> x < |AgentNames|
  {
    if stream == [] then []
    else
      var item := stream[|stream| - 1];
      var seen := FirstSeen(stream[..|stream| - 1]);
      if Accepted(item) && AgentIndex(item.source) !in seen then seen + [AgentIndex(item.source)] else seen
  }

  /** The progress values: after each accepted message, the share of agents heard from so far. */
  function Progress(stream: seq<StreamItem>): (r: seq<real>)
    ensures |r| == |Results(stream)|
  {
    if stream == [] then []
    else
      Progress(stream[..|stream| - 1])
        + if Accepted(stream[|stream| - 1]) then [Fraction(|FirstSeen(stream)|)] else []
  }

  /** Some accepted message of the stream comes from `agent`. */
  predicate Heard(stream: seq<StreamItem>, agent: string) {
    exists k :: 0 <= k < |stream| && Accepted(stream[k]) && stream[k].source == agent
  }

  /** An agent is heard from in a longer stream when it was before, or the new item is its accepted message. */
  lemma HeardStep(stream: seq<StreamItem>)
    requires stream != []
    ensures forall a :: Heard(stream, a) <==>
              Heard(stream[..|stream| - 1], a) ||
              (Accepted(stream[|stream| - 1]) && stream[|stream| - 1].source == a)
  {
    var init, last := stream[..|stream| - 1], stream[|stream| - 1];
    forall a ensures Heard(stream, a) <==> Heard(init, a) || (Accepted(last) && last.source == a) {
      if Heard(stream, a) {
        var k :| 0 <= k < |stream| && Accepted(stream[k]) && stream[k].source == a;
        if k < |init| {
          assert init[k] == stream[k];
        }
      }
      if Heard(init, a) {
        var k :| 0 <= k < |init| && Accepted(init[k]) && init[k].source == a;
        assert stream[k] == init[k];
      }
    }
  }

  predicate NoDuplicates(s: seq<nat>) {
    forall i, j :: 0 <= i < j < |s| ==> s[i] != s[j]
  }

  /** FirstSeen holds each agent index at most once, and exactly the indices of agents heard from. */
  lemma {:induction false} FirstSeenSpec(stream: seq<StreamItem>)
    ensures NoDuplicates(FirstSeen(stream))
    ensures forall i :: 0 <= i < |AgentNames| ==> (i in FirstSeen(stream) <==> Heard(stream, AgentNames[i]))
    decreases |stream|
  {
    if stream != [] {
      FirstSeenSpec(stream[..|stream| - 1]);
      HeardStep(stream);
    }
  }

  /** A list of distinct indices below n has at most n elements. */
  lemma {:induction false} DistinctBelowBound(s: seq<nat>, n: nat)
    requires NoDuplicates(s)
    requires forall x :: x in s ==> x < n
    ensures |s| <= n
    decreases |s|
  {
    if s != [] {
      var init, last := s[..|s| - 1], s[|s| - 1];
      assert last in s;
      assert last !in init;
      // Move the value n - 1, if init holds it, to the slot that last frees.
      var moved := seq(|init|, k requires 0 <= k < |init| => if init[k] == n - 1 then last else init[k]);
      assert forall k :: 0 <= k < |init| ==> init[k] in s;
      DistinctBelowBound(moved, n - 1);
    }
  }

  /** The completed list never holds more than the four agents. */
  lemma FirstSeenBound(stream: seq<StreamItem>)
    ensures NoDuplicates(FirstSeen(stream)) && |FirstSeen(stream)| <= |AgentNames|
  {
    FirstSeenSpec(stream);
    DistinctBelowBound(FirstSeen(stream), |AgentNames|);
  }

  /** How the results and the completed list grow when one more item arrives. */
  lemma PrefixStep(stream: seq<StreamItem>, i: nat)
    requires i < |stream|
    ensures Results(stream[..i + 1]) == Results(stream[..i]) +
              if Accepted(stream[i]) then [ResultEntry(stream[i].source, stream[i].content, stream[i].stamp)] else []
    ensures FirstSeen(stream[..i + 1]) ==
              if Accepted(stream[i]) && AgentIndex(stream[i].source) !in FirstSeen(stream[..i])
              then FirstSeen(stream[..i]) + [AgentIndex(stream[i].source)]
              else FirstSeen(stream[..i])
    ensures Progress(stream[..i + 1]) == Progress(stream[..i]) +
              if Accepted(stream[i]) then [Fraction(|FirstSeen(stream[..i + 1])|)] else []
  {
    var p := stream[..i + 1];
    assert p[..|p| - 1] == stream[..i] && p[|p| - 1] == stream[i];
  }

  /** How the latest output of each agent changes when one more item arrives. */
  lemma LatestStep(stream: seq<StreamItem>, i: nat)
    requires i < |stream|
    ensures forall a :: LatestOutput(stream[..i + 1], a) ==
              if Accepted(stream[i]) && stream[i].source == a then Some(stream[i].content)
              else LatestOutput(stream[..i], a)
  {
    var p := stream[..i + 1];
    assert p[..|p| - 1] == stream[..i] && p[|p| - 1] == stream[i];
    forall a
      ensures LatestOutput(p, a) ==
                if Accepted(stream[i]) && stream[i].source == a then Some(stream[i].content)
                else LatestOutput(stream[..i], a)
    {
    }
  }

  /** `outputs` maps each agent heard from in `stream` to its latest content, and holds nothing else. */
  ghost predicate OutputsAre(outputs: map<string, string>, stream: seq<StreamItem>) {
    forall a :: (a in outputs <==> LatestOutput(stream, a).Some?)
                && (a in outputs ==> outputs[a] == LatestOutput(stream, a).value)
  }

  /** Recording an accepted message keeps `outputs` equal to the latest outputs. */
  lemma OutputsStep(outputs: map<string, string>, stream: seq<StreamItem>, i: nat)
    requires i < |stream| && OutputsAre(outputs, stream[..i])
    ensures Accepted(stream[i]) ==> OutputsAre(outputs[stream[i].source := stream[i].content], stream[..i + 1])
    ensures !Accepted(stream[i]) ==> OutputsAre(outputs, stream[..i + 1])
  {
    LatestStep(stream, i);
  }

  /** Every progress value lies in (0, 1] and none is below the one before it. */
  predicate ProgressOk(progress: seq<real>) {
    && (forall k :: 0 <= k < |progress| ==> 0.0 < progress[k] <= 1.0)
    && (forall k :: 0 < k < |progress| ==> progress[k - 1] <= progress[k])
  }

  lemma ProgressStep(progress: seq<real>, x: real)
    requires ProgressOk(progress) && 0.0 < x <= 1.0
    requires progress != [] ==> progress[|progress| - 1] <= x
    ensures ProgressOk(progress + [x])
  {
  }

  /** A list that never decreases from one element to the next never decreases at all. */
  lemma {:induction false} StepwiseIsMonotone(xs: seq<real>)
    requires forall k :: 0 < k < |xs| ==> xs[k - 1] <= xs[k]
    ensures forall k, l :: 0 <= k <= l < |xs| ==> xs[k] <= xs[l]
    decreases |xs|
  {
    if xs != [] {
      var init := xs[..|xs| - 1];
      StepwiseIsMonotone(init);
      forall k, l | 0 <= k <= l < |xs| ensures xs[k] <= xs[l] {
        if l < |init| {
          assert init[k] == xs[k] && init[l] == xs[l];
        } else if k < l {
          assert init[k] == xs[k] && init[l - 1] == xs[l - 1];
        }
      }
    }
  }

  /** The fraction shown on the progress bar after a message: completed agents over the four agents. */
  function Fraction(completedCount: nat): (r: real)
    ensures completedCount > 0 ==> r > 0.0
    ensures completedCount <= |AgentNames| ==> r <= 1.0
    ensures r * |AgentNames| as real == completedCount as real
  {
    completedCount as real / |AgentNames| as real
  }

  lemma FractionMonotone(a: nat, b: nat)
    requires a <= b
    ensures Fraction(a) <= Fraction(b)
  {
  }

  /** The completed list only grows, stays within the four agents, and is non-empty after an accepted message. */
  lemma CompletedGrowth(stream: seq<StreamItem>)
    requires stream != []
    ensures |FirstSeen(stream[..|stream| - 1])| <= |FirstSeen(stream)| <= |AgentNames|
    ensures Accepted(stream[|stream| - 1]) ==> |FirstSeen(stream)| > 0
  {
    FirstSeenBound(stream);
  }

  /**
   * Each progress value lies in (0, 1], none is below the one before it,
   * and the last is the share of agents heard from.
   */
  lemma {:induction false} ProgressSpec(stream: seq<StreamItem>)
    ensures ProgressOk(Progress(stream))
    ensures Progress(stream) != [] ==> Progress(stream)[|Progress(stream)| - 1] == Fraction(|FirstSeen(stream)|)
    decreases |stream|
  {
    if stream != [] {
      var init := stream[..|stream| - 1];
      ProgressSpec(init);
      CompletedGrowth(stream);
      if Accepted(stream[|stream| - 1]) {
        var x := Fraction(|FirstSeen(stream)|);
        assert Progress(stream) == Progress(init) + [x];
        FractionMonotone(|FirstSeen(init)|, |FirstSeen(stream)|);
        ProgressStep(Progress(init), x);
      } else {
        assert Progress(stream) == Progress(init);
      }
    }
  }

  /** The progress bar never moves back during a run. */
  lemma ProgressNeverDecreases(stream: seq<StreamItem>)
    ensures forall k, l :: 0 <= k <= l < |Progress(stream)| ==> Progress(stream)[k] <= Progress(stream)[l]
  {
    ProgressSpec(stream);
    StepwiseIsMonotone(Progress(stream));
  }

  /**
   * The body of `run_with_progress`: for every accepted message, record the
   * agent's index on first sight, keep its latest output, append a result
   * and report the progress fraction.
   */
  method RunWithProgress(stream: seq<StreamItem>)
    returns (results: seq<ResultEntry>, outputs: map<string, string>, completed: seq<nat>, progress: seq<real>)
    ensures results == Results(stream)
    ensures OutputsAre(outputs, stream)
    ensures completed == FirstSeen(stream)
    ensures NoDuplicates(completed) && |completed| <= |AgentNames|
    ensures progress == Progress(stream)
    ensures |progress| == |results| && ProgressOk(progress)
  {
    results, outputs, completed, progress := [], map[], [], [];
    for i := 0 to |stream|
      invariant results == Results(stream[..i])
      invariant OutputsAre(outputs, stream[..i])
      invariant completed == FirstSeen(stream[..i])
      invariant progress == Progress(stream[..i])
    {
      PrefixStep(stream, i);
      OutputsStep(outputs, stream, i);
      var item := stream[i];
      if Accepted(item) {
        var source, content := item.source, item.content;
        var index := AgentIndex(source);
        if index !in completed {
          completed := completed + [index];
        }
        outputs := outputs[source := content];
        results := results + [ResultEntry(source, content, item.stamp)];
        progress := progress + [Fraction(|completed|)];
      }
    }
    assert stream[..|stream|] == stream;
    FirstSeenBound(stream);
    ProgressSpec(stream);
  }

  /**
   * After a run the session keeps the completed list and sets the current
   * agent to -1: an agent is done exactly when a message of it was accepted,
   * and pending otherwise.
   */
  lemma StatusAfterRun(stream: seq<StreamItem>, i: nat)
    requires i < |AgentNames|
    ensures StatusOf(i, FirstSeen(stream), -1) == if Heard(stream, AgentNames[i]) then Done else Pending
  {
    FirstSeenSpec(stream);
  }

  /** When a run starts (nothing completed, current agent 0) the first agent is active and the others pending. */
  lemma StatusAtStart(i: nat)
    requires i < |AgentNames|
    ensures StatusOf(i, [], 0) == if i == 0 then Active else Pending
  {
  }
}
