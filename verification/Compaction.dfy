/**
 Compaction of an agent's event history: old events are folded into a summary, recent
 ones are kept. However often and wherever the history is cut, the summary is that of
 everything dropped so far.
 */
module Compaction {
  import opened Options
  import opened Collections

  datatype VerificationFacts = VerificationFacts(passed: bool, runId: string, criteria: seq<(string, bool)>)

  /** What compaction looks at in an event: its tool, the path in its output, whether it mutated,
      its error, and the verification it reports if it is one. */
  datatype Event = Event(
    tool: Option<string>,
    path: Option<string>,
    mutated: bool,
    error: Option<string>,
    verification: Option<VerificationFacts>)

  datatype Summary = Summary(
    count: nat,
    tools: map<string, nat>,
    filesRead: set<string>,
    filesMutated: set<string>,
    errors: seq<string>,
    verification: Option<VerificationFacts>)

  const EMPTY_SUMMARY := Summary(0, map[], {}, {}, [], None)

  const MAX_ERRORS: nat := 5

  function LastFive(errors: seq<string>): seq<string> {
    if |errors| <= MAX_ERRORS then errors else errors[|errors| - MAX_ERRORS..]
  }

  // ----- the summary of a stretch of history, part by part -----

  function ToolUses(events: seq<Event>, tool: string): nat {
    if events == [] then 0
    else ToolUses(events[..|events| - 1], tool) + if events[|events| - 1].tool == Some(tool) then 1 else 0
  }

  function ToolCounts(events: seq<Event>): map<string, nat> {
    map e | e in events && e.tool.Some? :: e.tool.value := ToolUses(events, e.tool.value)
  }

  function Files(events: seq<Event>, mutated: bool): set<string> {
    set e | e in events && e.path.Some? && e.mutated == mutated :: e.path.value
  }

  function Errors(events: seq<Event>): seq<string> {
    if events == [] then []
    else
      ErrorIn(events[0]) + Errors(events[1..])
  }

  function LatestVerification(events: seq<Event>): Option<VerificationFacts> {
    if events == [] then None
    else if events[|events| - 1].verification.Some? then events[|events| - 1].verification
    else LatestVerification(events[..|events| - 1])
  }

  /** The one summary of everything in `events`. */
  function SummaryOf(events: seq<Event>): Summary {
    Summary(|events|, ToolCounts(events), Files(events, false), Files(events, true),
            LastFive(Errors(events)), LatestVerification(events))
  }

  // ----- the loop that computes it incrementally -----

  /** Negative slices: the last `keep` events are recent, except that a keep of zero keeps all. */
  function CutPoint(events: seq<Event>, keep: nat): (cut: nat)
    ensures cut <= |events|
    ensures 0 < keep < |events| ==> |events[cut..]| == keep
    ensures keep == 0 || keep >= |events| ==> events[cut..] == events
  {
    if keep == 0 || keep >= |events| then 0 else |events| - keep
  }

  function ErrorIn(e: Event): seq<string> {
    match e.error
    case None => []
    case Some(error) => [error]
  }

  lemma SnocFiles(events: seq<Event>, e: Event, mutated: bool)
    ensures Files(events + [e], mutated) ==
            if e.path.Some? && e.mutated == mutated then Files(events, mutated) + {e.path.value}
            else Files(events, mutated)
  {
    var all := events + [e];
    assert forall x :: x in all <==> x in events || x == e;
  }

  lemma {:induction false} ErrorsConcat(a: seq<Event>, b: seq<Event>)
    ensures Errors(a + b) == Errors(a) + Errors(b)
  {
    if a == [] {
      assert a + b == b;
    } else {
      ErrorsConcat(a[1..], b);
      TailOfConcat(a, b);
      ConcatAssociates(ErrorIn(a[0]), Errors(a[1..]), Errors(b));
    }
  }

  lemma SnocErrors(events: seq<Event>, e: Event)
    ensures Errors(events + [e]) == Errors(events) + ErrorIn(e)
    ensures LatestVerification(events + [e]) ==
            if e.verification.Some? then e.verification else LatestVerification(events)
  {
    assert (events + [e])[..|events|] == events;
    ErrorsConcat(events, [e]);
    assert Errors([e]) == ErrorIn(e);
  }

  lemma SnocCounts(events: seq<Event>, e: Event)
    ensures ToolCounts(events + [e]) ==
            match e.tool {
              case None => ToolCounts(events)
              case Some(t) =>
                ToolCounts(events)[t := (if t in ToolCounts(events) then ToolCounts(events)[t] else 0) + 1]
            }
  {
    var all := events + [e];
    assert all[..|events|] == events;
    assert forall x :: x in all <==> x in events || x == e;
    if e.tool.Some? {
      assert e in all;
      if e.tool.value !in ToolCounts(events) {
        UnusedTool(events, e.tool.value);
      }
    }
  }

  lemma {:induction false} UnusedTool(events: seq<Event>, tool: string)
    requires forall e :: e in events ==> e.tool != Some(tool)
    ensures ToolUses(events, tool) == 0
  {
    if events != [] {
      UnusedTool(events[..|events| - 1], tool);
    }
  }

  /** Trimming to the last five errors before or after adding more gives the same five. */
  lemma LastFiveComposes(a: seq<string>, b: seq<string>)
    ensures LastFive(LastFive(a) + b) == LastFive(a + b)
  {
  }

  function AbsorbOne(s: Summary, e: Event): Summary {
    s.(tools := if e.tool.Some? then
                  s.tools[e.tool.value := (if e.tool.value in s.tools then s.tools[e.tool.value] else 0) + 1]
                else s.tools,
       filesRead := if e.path.Some? && !e.mutated then s.filesRead + {e.path.value} else s.filesRead,
       filesMutated := if e.path.Some? && e.mutated then s.filesMutated + {e.path.value} else s.filesMutated,
       errors := s.errors + ErrorIn(e),
       verification := if e.verification.Some? then e.verification else s.verification)
  }

  function AbsorbAll(s: Summary, events: seq<Event>): Summary {
    if events == [] then s else AbsorbOne(AbsorbAll(s, events[..|events| - 1]), events[|events| - 1])
  }

  /** The previous summary with more events folded in, errors trimmed at the end. */
  function Absorb(previous: Option<Summary>, events: seq<Event>): Summary {
    var all := AbsorbAll(if previous.Some? then previous.value else EMPTY_SUMMARY, events);
    all.(count := all.count + |events|, errors := LastFive(all.errors))
  }

  method CompactEvents(previous: Option<Summary>, events: seq<Event>, keep: nat)
    returns (summary: Summary, recent: seq<Event>)
    ensures recent == events[CutPoint(events, keep)..]
    ensures 0 < keep < |events| ==> |recent| == keep
    ensures keep == 0 || keep >= |events| ==> recent == events
    ensures summary == Absorb(previous, events[..CutPoint(events, keep)])
  {
    var cut := CutPoint(events, keep);
    recent := events[cut..];
    var start := if previous.Some? then previous.value else EMPTY_SUMMARY;
    var tools, filesRead, filesMutated := start.tools, start.filesRead, start.filesMutated;
    var errors, verification := start.errors, start.verification;
    for i := 0 to cut
      invariant Summary(start.count, tools, filesRead, filesMutated, errors, verification) ==
                AbsorbAll(start, events[..i])
    {
      var event := events[i];
      assert events[..i + 1][..i] == events[..i];
      if event.tool.Some? {
        var tool := event.tool.value;
        tools := tools[tool := (if tool in tools then tools[tool] else 0) + 1];
      }
      if event.path.Some? {
        if event.mutated {
          filesMutated := filesMutated + {event.path.value};
        } else {
          filesRead := filesRead + {event.path.value};
        }
      }
      if event.error.Some? {
        errors := errors + [event.error.value];
      } else {
        assert errors + [] == errors;
      }
      if event.verification.Some? {
        verification := event.verification;
      }
    }
    summary := Summary(start.count + cut, tools, filesRead, filesMutated, LastFive(errors), verification);
  }

  // ----- the summary does not depend on where the history was cut -----

  /** All parts of an untrimmed running summary of `dropped + events`. */
  ghost predicate Covers(s: Summary, dropped: seq<Event>, events: seq<Event>) {
    var all := dropped + events;
    && s.count == |dropped|
    && s.tools == ToolCounts(all)
    && s.filesRead == Files(all, false) && s.filesMutated == Files(all, true)
    && s.errors == LastFive(Errors(dropped)) + Errors(events)
    && s.verification == LatestVerification(all)
  }

  lemma AbsorbOneTables(s: Summary, all: seq<Event>, e: Event)
    requires s.tools == ToolCounts(all) && s.verification == LatestVerification(all)
    requires s.filesRead == Files(all, false) && s.filesMutated == Files(all, true)
    ensures var next := AbsorbOne(s, e);
            && next.tools == ToolCounts(all + [e]) && next.verification == LatestVerification(all + [e])
            && next.filesRead == Files(all + [e], false) && next.filesMutated == Files(all + [e], true)
  {
    SnocFiles(all, e, false);
    SnocFiles(all, e, true);
    SnocErrors(all, e);
    SnocCounts(all, e);
  }

  lemma AbsorbOneCovers(s: Summary, dropped: seq<Event>, events: seq<Event>, e: Event)
    requires Covers(s, dropped, events)
    ensures Covers(AbsorbOne(s, e), dropped, events + [e])
  {
    assert dropped + (events + [e]) == (dropped + events) + [e];
    AbsorbOneTables(s, dropped + events, e);
    SnocErrors(events, e);
    assert LastFive(Errors(dropped)) + (Errors(events) + ErrorIn(e)) ==
           (LastFive(Errors(dropped)) + Errors(events)) + ErrorIn(e);
  }

  lemma {:induction false} AbsorbAllCovers(dropped: seq<Event>, events: seq<Event>)
    ensures Covers(AbsorbAll(SummaryOf(dropped), events), dropped, events)
  {
    if events == [] {
      assert dropped + [] == dropped;
    } else {
      var front, last := events[..|events| - 1], events[|events| - 1];
      AbsorbAllCovers(dropped, front);
      AbsorbOneCovers(AbsorbAll(SummaryOf(dropped), front), dropped, front, last);
      FrontAndLast(events);
    }
  }

  /** Absorbing more events into the summary of a history gives the summary of the whole. */
  lemma AbsorbContinues(previous: Option<Summary>, dropped: seq<Event>, events: seq<Event>)
    requires if previous.None? then dropped == [] else previous.value == SummaryOf(dropped)
    ensures Absorb(previous, events) == SummaryOf(dropped + events)
  {
    assert SummaryOf([]) == EMPTY_SUMMARY;
    AbsorbAllCovers(dropped, events);
    ErrorsConcat(dropped, events);
    LastFiveComposes(Errors(dropped), Errors(events));
  }

  // ----- any interleaving of appends and compactions -----

  datatype Action = Append(event: Event) | Compact(keep: nat)

  datatype Transcript = Transcript(summary: Option<Summary>, events: seq<Event>)

  function Apply(t: Transcript, action: Action): Transcript {
    match action
    case Append(event) => t.(events := t.events + [event])
    case Compact(keep) =>
      var cut := CutPoint(t.events, keep);
      Transcript(Some(Absorb(t.summary, t.events[..cut])), t.events[cut..])
  }

  function Replay(actions: seq<Action>): Transcript {
    if actions == [] then Transcript(None, [])
    else Apply(Replay(actions[..|actions| - 1]), actions[|actions| - 1])
  }

  /** Every event ever appended, in order. */
  function Appended(actions: seq<Action>): seq<Event> {
    if actions == [] then []
    else
      Appended(actions[..|actions| - 1]) +
      match actions[|actions| - 1] { case Append(event) => [event] case Compact(_) => [] }
  }

  /** The kept events are a suffix of the history, and the summary is that of all before it. */
  ghost predicate Represents(t: Transcript, history: seq<Event>) {
    && |t.events| <= |history|
    && var dropped := |history| - |t.events|;
       && t.events == history[dropped..]
       && match t.summary {
            case None => dropped == 0
            case Some(summary) => summary == SummaryOf(history[..dropped])
          }
  }

  lemma AppendRepresents(t: Transcript, history: seq<Event>, event: Event)
    requires Represents(t, history)
    ensures Represents(Apply(t, Append(event)), history + [event])
  {
    var dropped := |history| - |t.events|;
    assert (history + [event])[dropped..] == t.events + [event];
    assert (history + [event])[..dropped] == history[..dropped];
  }

  lemma CompactRepresents(t: Transcript, history: seq<Event>, keep: nat)
    requires Represents(t, history)
    ensures Represents(Apply(t, Compact(keep)), history)
  {
    var dropped, cut := |history| - |t.events|, CutPoint(t.events, keep);
    AbsorbContinues(t.summary, history[..dropped], t.events[..cut]);
    assert history[..dropped] + t.events[..cut] == history[..dropped + cut];
    assert t.events[cut..] == history[dropped + cut..];
  }

  /** After any interleaving of appends and compactions the kept events are a suffix of the full
      history, the compacted count and the kept events add up to it, and the summary is one fold
      over the dropped prefix wherever the boundaries fell. */
  lemma {:induction false} EveryTranscriptRepresents(actions: seq<Action>)
    ensures Represents(Replay(actions), Appended(actions))
    ensures Replay(actions).summary.Some? ==>
              Replay(actions).summary.value.count + |Replay(actions).events| == |Appended(actions)|
  {
    if actions != [] {
      var front, last := actions[..|actions| - 1], actions[|actions| - 1];
      EveryTranscriptRepresents(front);
      match last {
        case Append(event) => AppendRepresents(Replay(front), Appended(front), event);
        case Compact(keep) =>
          CompactRepresents(Replay(front), Appended(front), keep);
          assert Appended(front) + [] == Appended(front);
      }
    }
  }
}
