/** Cutting one session's entry stream into task segments.

    An entry is what one JSON line yields: its type, its timestamp in milliseconds (0 when it has none),
    the text extracted from its message and the tokens its usage counts. Lines that do not parse yield no entry. */
module Segments {

  const TASK_GAP_MS: int := 300_000
  const MAX_PROMPT: nat := 500

  datatype Kind = User | Assistant | System | Unknown | Noise
  datatype Entry = Entry(
    kind: Kind,
    time: int,
    cwd: string,
    prompt: string,
    texts: seq<string>,
    tools: seq<string>,
    tokens: int)

  datatype Segment = Segment(
    index: nat,
    cwd: string,
    start: int,
    end: int,
    prompts: seq<string>,
    texts: seq<string>,
    tools: seq<string>,
    messages: nat,
    tokens: int)

  datatype Current = Nothing | Open(segment: Segment)

  // ---------------------------------------------------------------- what an entry contributes

  function Clipped(text: string): string {
    if |text| > MAX_PROMPT then text[..MAX_PROMPT] else text
  }

  datatype Part = Prompts | Texts | Tools

  function In(p: Part, e: Entry): seq<string> {
    match p
    case Prompts => if e.kind == User && e.prompt != [] then [Clipped(e.prompt)] else []
    case Texts => if e.kind == Assistant then e.texts else []
    case Tools => if e.kind == Assistant then e.tools else []
  }

  function All(p: Part, entries: seq<Entry>): seq<string> {
    if entries == [] then [] else All(p, entries[..|entries| - 1]) + In(p, entries[|entries| - 1])
  }

  function Lengths(texts: seq<string>): nat {
    if texts == [] then 0 else Lengths(texts[..|texts| - 1]) + |texts[|texts| - 1]|
  }

  /** What an entry adds to the running size of its segment. */
  function SizeOf(e: Entry): nat {
    Lengths(In(Prompts, e)) + Lengths(In(Texts, e)) + Lengths(In(Tools, e))
  }

  function TotalSize(entries: seq<Entry>): nat {
    if entries == [] then 0 else TotalSize(entries[..|entries| - 1]) + SizeOf(entries[|entries| - 1])
  }

  // ---------------------------------------------------------------- where the stream is cut

  predicate Timed(e: Entry) {
    e.kind == User && e.time > 0
  }

  /** The time of the last user entry that had one, 0 before there is any. */
  function LastUserTime(entries: seq<Entry>): (t: int)
    ensures t >= 0
  {
    if entries == [] then 0
    else if Timed(entries[|entries| - 1]) then entries[|entries| - 1].time
    else LastUserTime(entries[..|entries| - 1])
  }

  predicate Cuts(lastUserTime: int, size: nat, maxChars: int, e: Entry) {
    Timed(e) && lastUserTime > 0 && (e.time - lastUserTime > TASK_GAP_MS || size > maxChars)
  }

  /** The groups of consecutive entries between two cuts; noise, and whatever precedes the first entry
      that can open a segment, belongs to none. */
  function Groups(entries: seq<Entry>, maxChars: int): seq<seq<Entry>> {
    if entries == [] then []
    else
      var e, rest := entries[|entries| - 1], entries[..|entries| - 1];
      if e.kind == Noise then Groups(rest, maxChars)
      else Grouped(Groups(rest, maxChars), LastUserTime(rest), maxChars, e)
  }

  function Grouped(groups: seq<seq<Entry>>, lastUserTime: int, maxChars: int, e: Entry): seq<seq<Entry>> {
    if groups == [] then if e.kind in {User, Assistant, System} then [[e]] else []
    else
      var last := groups[|groups| - 1];
      if Cuts(lastUserTime, TotalSize(last), maxChars, e) then groups + [[e]]
      else groups[..|groups| - 1] + [last + [e]]
  }

  function Flat(groups: seq<seq<Entry>>): seq<Entry> {
    if groups == [] then [] else Flat(groups[..|groups| - 1]) + groups[|groups| - 1]
  }

  // ---------------------------------------------------------------- the segment a group makes

  function TokensOf(e: Entry): int {
    if e.kind in {User, Assistant} then e.tokens else 0
  }

  function AllTokens(entries: seq<Entry>): int {
    if entries == [] then 0 else AllTokens(entries[..|entries| - 1]) + TokensOf(entries[|entries| - 1])
  }

  /** The last working directory any entry named. */
  function LastCwd(entries: seq<Entry>): string {
    if entries == [] then []
    else if entries[|entries| - 1].cwd != [] then entries[|entries| - 1].cwd
    else LastCwd(entries[..|entries| - 1])
  }

  /** The time of the first entry, or the clock's when it has none. */
  function StartOf(group: seq<Entry>, now: int): int {
    if group == [] || group[0].time == 0 then now else group[0].time
  }

  function Later(end: int, e: Entry): int {
    if e.time > end && e.time > 0 then e.time else end
  }

  function EndOf(start: int, group: seq<Entry>): (end: int)
    ensures start <= end
  {
    if group == [] then start else Later(EndOf(start, group[..|group| - 1]), group[|group| - 1])
  }

  /** The segment of one group; `before` is all that precedes it. */
  function SegmentOf(index: nat, before: seq<Entry>, group: seq<Entry>, start: int): Segment {
    Segment(index, LastCwd(before + group), start, EndOf(start, group), All(Prompts, group), All(Texts, group),
            All(Tools, group), |group|, AllTokens(group))
  }

  predicate Empty(s: Segment) {
    s.prompts == [] && s.tools == [] && s.texts == []
  }

  /** One segment for every group with content, numbered in order. */
  function Built(groups: seq<seq<Entry>>, now: int): seq<Segment> {
    if groups == [] then []
    else
      var before, last := groups[..|groups| - 1], groups[|groups| - 1];
      var built := Built(before, now);
      Closed(built, SegmentOf(|built|, Flat(before), last, StartOf(last, now)))
  }

  function Closed(segments: seq<Segment>, s: Segment): seq<Segment> {
    if Empty(s) then segments else segments + [s]
  }

  // ---------------------------------------------------------------- the extraction loop

  /** One more entry in the current segment. */
  function Added(s: Segment, e: Entry): Segment {
    s.(end := Later(s.end, e),
       messages := s.messages + 1,
       cwd := if e.cwd != [] then e.cwd else s.cwd,
       prompts := s.prompts + In(Prompts, e),
       texts := s.texts + In(Texts, e),
       tools := s.tools + In(Tools, e),
       tokens := s.tokens + TokensOf(e))
  }

  function Started(index: nat, cwd: string, time: int): Segment {
    Segment(index, cwd, time, time, [], [], [], 0, 0)
  }

  lemma AddedIs(index: nat, before: seq<Entry>, group: seq<Entry>, start: int, e: Entry)
    ensures Added(SegmentOf(index, before, group, start), e) == SegmentOf(index, before, group + [e], start)
    ensures TotalSize(group + [e]) == TotalSize(group) + SizeOf(e)
  {
    hide In;
    assert (group + [e])[..|group|] == group;
    assert (before + (group + [e]))[..|before + group|] == before + group;
  }

  lemma StartedIs(index: nat, before: seq<Entry>, cwd: string, start: int, e: Entry)
    requires e.cwd == [] ==> cwd == LastCwd(before)
    ensures Added(Started(index, cwd, start), e) == SegmentOf(index, before, [e], start)
    ensures TotalSize([e]) == SizeOf(e)
  {
    assert SegmentOf(index, before, [], start) == Started(index, LastCwd(before), start) by {
      assert before + [] == before;
    }
    AddedIs(index, before, [], start, e);
    assert [] + [e] == [e];
    hide SegmentOf;
    hide In;
    assert (before + [e])[..|before|] == before;
  }

  lemma BuiltNext(groups: seq<seq<Entry>>, last: seq<Entry>, now: int)
    ensures var built := Built(groups, now);
            Built(groups + [last], now) == Closed(built, SegmentOf(|built|, Flat(groups), last, StartOf(last, now)))
  {
    assert (groups + [last])[..|groups|] == groups;
    hide SegmentOf;
    hide Closed;
  }

  /** The loop has built what precedes the last group, and its open segment is that group's so far. */
  predicate Tracks(segments: seq<Segment>, current: Current, chars: int, groups: seq<seq<Entry>>, now: int) {
    if current == Nothing then groups == [] && segments == [] && chars == 0
    else
      && groups != []
      && var before, last := groups[..|groups| - 1], groups[|groups| - 1];
      && last != []
      && segments == Built(before, now)
      && chars == TotalSize(last)
      && current.segment == SegmentOf(|segments|, Flat(before), last, StartOf(last, now))
  }

  lemma NoGroups(maxChars: int, now: int)
    ensures Groups([], maxChars) == [] && Built([], now) == [] && LastUserTime([]) == 0
  {
  }

  lemma NextGroups(entries: seq<Entry>, i: nat, maxChars: int)
    requires i < |entries|
    ensures var e, seen := entries[i], entries[..i];
            && Groups(entries[..i + 1], maxChars)
               == (if e.kind == Noise then Groups(seen, maxChars)
                   else Grouped(Groups(seen, maxChars), LastUserTime(seen), maxChars, e))
            && LastUserTime(entries[..i + 1]) == (if Timed(e) then e.time else LastUserTime(seen))
            && !Cuts(0, 0, maxChars, e)
  {
    assert entries[..i + 1][..i] == entries[..i];
  }

  lemma TracksOne(segments: seq<Segment>, s: Segment, chars: nat, groups: seq<seq<Entry>>, last: seq<Entry>, now: int)
    ensures Tracks(segments, Open(s), chars, groups + [last], now) <==>
              && last != [] && segments == Built(groups, now) && chars == TotalSize(last)
              && s == SegmentOf(|segments|, Flat(groups), last, StartOf(last, now))
  {
    assert (groups + [last])[..|groups|] == groups;
  }

  lemma OpenTracks(e: Entry, now: int)
    ensures var time := if e.time != 0 then e.time else now;
            Tracks([], Open(Added(Started(0, e.cwd, time), e)), SizeOf(e), [[e]], now)
  {
    var time := if e.time != 0 then e.time else now;
    assert StartOf([e], now) == time && Flat([]) == [] && LastCwd([]) == [] && Built([], now) == [];
    hide *;
    StartedIs(0, [], e.cwd, time, e);
    assert [] + [[e]] == [[e]];
    TracksOne([], Added(Started(0, e.cwd, time), e), SizeOf(e), [], [e], now);
  }

  lemma ExtendTracks(segments: seq<Segment>, s: Segment, chars: nat, groups: seq<seq<Entry>>, last: seq<Entry>,
                     e: Entry, now: int)
    requires Tracks(segments, Open(s), chars, groups + [last], now)
    ensures Tracks(segments, Open(Added(s, e)), chars + SizeOf(e), groups + [last + [e]], now)
  {
    TracksOne(segments, s, chars, groups, last, now);
    assert StartOf(last + [e], now) == StartOf(last, now);
    hide *;
    AddedIs(|segments|, Flat(groups), last, StartOf(last, now), e);
    TracksOne(segments, Added(s, e), chars + SizeOf(e), groups, last + [e], now);
  }

  lemma CutTracks(segments: seq<Segment>, s: Segment, chars: nat, groups: seq<seq<Entry>>, last: seq<Entry>,
                  cwd: string, e: Entry, now: int)
    requires Tracks(segments, Open(s), chars, groups + [last], now) && e.time != 0
    requires cwd == if e.cwd != [] then e.cwd else s.cwd
    ensures Closed(segments, s) == Built(groups + [last], now)
    ensures var next := Started(|Closed(segments, s)|, cwd, e.time);
            Tracks(Closed(segments, s), Open(Added(next, e)), SizeOf(e), groups + [last] + [[e]], now)
  {
    TracksOne(segments, s, chars, groups, last, now);
    BuiltNext(groups, last, now);
    FlatSnoc(groups, last);
    assert s.cwd == LastCwd(Flat(groups + [last])) && StartOf([e], now) == e.time;
    hide *;
    var next := Started(|Closed(segments, s)|, cwd, e.time);
    StartedIs(|Closed(segments, s)|, Flat(groups + [last]), cwd, e.time, e);
    TracksOne(Closed(segments, s), Added(next, e), SizeOf(e), groups + [last], [e], now);
  }

  lemma CloseTracks(segments: seq<Segment>, s: Segment, chars: nat, groups: seq<seq<Entry>>, last: seq<Entry>, now: int)
    requires Tracks(segments, Open(s), chars, groups + [last], now)
    ensures Closed(segments, s) == Built(groups + [last], now)
  {
    hide *;
    TracksOne(segments, s, chars, groups, last, now);
    BuiltNext(groups, last, now);
  }

  method ExtractSegments(entries: seq<Entry>, maxChars: int, now: int) returns (segments: seq<Segment>)
    ensures segments == Built(Groups(entries, maxChars), now)
  {
    hide Built;
    hide SegmentOf;
    hide StartOf;
    hide Flat;
    hide SizeOf;
    hide TotalSize;
    hide Added;
    hide Groups;
    hide LastUserTime;
    segments := [];
    var current := Nothing;
    var chars, lastUserTime := 0, 0;
    NoGroups(maxChars, now);
    for i := 0 to |entries|
      invariant lastUserTime == LastUserTime(entries[..i])
      invariant current == Nothing ==> lastUserTime == 0
      invariant Tracks(segments, current, chars, Groups(entries[..i], maxChars), now)
    {
      var e := entries[i];
      NextGroups(entries, i, maxChars);
      ghost var groups := Groups(entries[..i], maxChars);
      if e.kind != Noise {
        if current == Nothing && e.kind in {User, Assistant, System} {
          var time := if e.time != 0 then e.time else now;
          OpenTracks(e, now);
          current := Open(Started(0, e.cwd, time));
        } else if current != Nothing {
          assert groups == groups[..|groups| - 1] + [groups[|groups| - 1]];
          ExtendTracks(segments, current.segment, chars, groups[..|groups| - 1], groups[|groups| - 1], e, now);
        }
        if current != Nothing {
          if Cuts(lastUserTime, chars, maxChars, e) {
            var cwd := if e.cwd != [] then e.cwd else current.segment.cwd;
            CutTracks(segments, current.segment, chars, groups[..|groups| - 1], groups[|groups| - 1], cwd, e, now);
            if current.segment.prompts != [] || current.segment.tools != [] || current.segment.texts != [] {
              segments := segments + [current.segment];
            }
            current := Open(Started(|segments|, cwd, e.time));
            chars := 0;
          }
          current := Open(Added(current.segment, e));
          chars := chars + SizeOf(e);
          if Timed(e) {
            lastUserTime := e.time;
          }
        }
      }
    }
    assert entries[..|entries|] == entries;
    if current != Nothing {
      ghost var groups := Groups(entries, maxChars);
      assert groups == groups[..|groups| - 1] + [groups[|groups| - 1]];
      CloseTracks(segments, current.segment, chars, groups[..|groups| - 1], groups[|groups| - 1], now);
      if current.segment.prompts != [] || current.segment.tools != [] || current.segment.texts != [] {
        segments := segments + [current.segment];
      }
    }
  }

  // ---------------------------------------------------------------- cuts fall exactly where they should

  lemma FlatSnoc(groups: seq<seq<Entry>>, last: seq<Entry>)
    ensures Flat(groups + [last]) == Flat(groups) + last
  {
    assert (groups + [last])[..|groups|] == groups;
  }

  /** Everything but noise, from the first entry that can open a segment on. */
  function Relevant(entries: seq<Entry>): seq<Entry> {
    if entries == [] then []
    else
      var e, rest := entries[|entries| - 1], Relevant(entries[..|entries| - 1]);
      if e.kind == Noise || (rest == [] && e.kind == Unknown) then rest else rest + [e]
  }

  lemma {:induction false} LastUserTimeOf(entries: seq<Entry>)
    ensures LastUserTime(Relevant(entries)) == LastUserTime(entries)
  {
    if entries != [] {
      var e, rest := entries[|entries| - 1], entries[..|entries| - 1];
      LastUserTimeOf(rest);
      assert (Relevant(rest) + [e])[..|Relevant(rest)|] == Relevant(rest);
    }
  }

  /** A group holds no entry, after its first, that calls for a cut; `before` is all that precedes the group. */
  predicate Whole(before: seq<Entry>, group: seq<Entry>, maxChars: int) {
    forall j :: 0 < j < |group| ==> !Cuts(LastUserTime(before + group[..j]), TotalSize(group[..j]), maxChars, group[j])
  }

  /** Every group but the first begins with an entry that calls for a cut, and none holds another. */
  predicate Greedy(groups: seq<seq<Entry>>, maxChars: int) {
    if groups == [] then true
    else
      var before, last := groups[..|groups| - 1], groups[|groups| - 1];
      && Greedy(before, maxChars)
      && last != [] && Whole(Flat(before), last, maxChars)
      && (before != [] ==> Cuts(LastUserTime(Flat(before)), TotalSize(before[|before| - 1]), maxChars, last[0]))
  }

  lemma GreedySnoc(groups: seq<seq<Entry>>, last: seq<Entry>, maxChars: int)
    ensures Greedy(groups + [last], maxChars) <==>
      && Greedy(groups, maxChars) && last != [] && Whole(Flat(groups), last, maxChars)
      && (groups != [] ==> Cuts(LastUserTime(Flat(groups)), TotalSize(groups[|groups| - 1]), maxChars, last[0]))
  {
    assert (groups + [last])[..|groups|] == groups;
  }

  lemma WholeSnoc(before: seq<Entry>, group: seq<Entry>, e: Entry, maxChars: int)
    requires group != [] && Whole(before, group, maxChars)
    requires !Cuts(LastUserTime(before + group), TotalSize(group), maxChars, e)
    ensures Whole(before, group + [e], maxChars)
  {
    hide Cuts;
    hide LastUserTime;
    hide TotalSize;
    var longer := group + [e];
    forall j | 0 < j < |longer|
      ensures !Cuts(LastUserTime(before + longer[..j]), TotalSize(longer[..j]), maxChars, longer[j])
    {
      assert longer[..j] == if j == |group| then group else group[..j];
    }
  }

  /** What one more entry does to the groups. */
  ghost predicate GroupsOn(groups: seq<seq<Entry>>, after: seq<seq<Entry>>, maxChars: int, e: Entry) {
    && Greedy(after, maxChars)
    && Flat(after) == (if groups == [] && e.kind in {Unknown, Noise} then [] else Flat(groups) + [e])
    && (after == [] <==> Flat(after) == [])
  }

  lemma FirstGroupIsGreedy(maxChars: int, e: Entry)
    ensures GroupsOn([], Grouped([], 0, maxChars, e), maxChars, e)
  {
    assert Flat([[e]]) == [e] && Greedy([[e]], maxChars) by {
      FlatSnoc([], [e]);
      GreedySnoc([], [e], maxChars);
      SingleIsWhole(Flat([]), e, maxChars);
      assert [] + [[e]] == [[e]] && Flat([]) + [e] == [e];
    }
    hide Greedy;
    assert Grouped([], 0, maxChars, e) == if e.kind in {User, Assistant, System} then [[e]] else [];
    assert e.kind == User || e.kind == Assistant || e.kind == System || e.kind == Unknown || e.kind == Noise;
    assert Flat([]) + [e] == [e] && Flat([]) == [];
    assert Greedy([], maxChars) by { NoGroupIsGreedy(maxChars); }
  }

  lemma NoGroupIsGreedy(maxChars: int)
    ensures Greedy([], maxChars)
  {
  }

  lemma LaterGroupIsGreedy(before: seq<seq<Entry>>, last: seq<Entry>, maxChars: int, e: Entry)
    requires Greedy(before + [last], maxChars)
    ensures var groups := before + [last];
            GroupsOn(groups, Grouped(groups, LastUserTime(Flat(groups)), maxChars, e), maxChars, e)
  {
    hide Cuts;
    hide LastUserTime;
    hide TotalSize;
    hide Greedy;
    hide Whole;
    hide Flat;
    var groups := before + [last];
    FlatSnoc(before, last);
    GreedySnoc(before, last, maxChars);
    assert groups[..|before|] == before;
    if Cuts(LastUserTime(Flat(groups)), TotalSize(last), maxChars, e) {
      FlatSnoc(groups, [e]);
      GreedySnoc(groups, [e], maxChars);
      SingleIsWhole(Flat(groups), e, maxChars);
    } else {
      FlatSnoc(before, last + [e]);
      GreedySnoc(before, last + [e], maxChars);
      assert Flat(before) + (last + [e]) == Flat(groups) + [e];
      WholeSnoc(Flat(before), last, e, maxChars);
      assert (last + [e])[0] == last[0];
    }
  }

  lemma GroupedIsGreedy(groups: seq<seq<Entry>>, maxChars: int, e: Entry)
    requires Greedy(groups, maxChars)
    ensures GroupsOn(groups, Grouped(groups, LastUserTime(Flat(groups)), maxChars, e), maxChars, e)
  {
    hide GroupsOn;
    if groups == [] {
      FirstGroupIsGreedy(maxChars, e);
    } else {
      assert groups == groups[..|groups| - 1] + [groups[|groups| - 1]];
      LaterGroupIsGreedy(groups[..|groups| - 1], groups[|groups| - 1], maxChars, e);
    }
  }

  lemma SingleIsWhole(before: seq<Entry>, e: Entry, maxChars: int)
    ensures Whole(before, [e], maxChars)
  {
  }

  /** The groups are the relevant entries in order, cut at every entry that calls for a cut and nowhere else. */
  lemma {:induction false} GroupsAreGreedy(entries: seq<Entry>, maxChars: int)
    ensures var groups := Groups(entries, maxChars);
            Flat(groups) == Relevant(entries) && Greedy(groups, maxChars) && (groups == [] <==> Flat(groups) == [])
  {
    if entries != [] {
      var e, rest := entries[|entries| - 1], entries[..|entries| - 1];
      GroupsAreGreedy(rest, maxChars);
      if e.kind != Noise {
        LastUserTimeOf(rest);
        hide LastUserTime;
        hide Grouped;
        hide Greedy;
        hide Flat;
        GroupedIsGreedy(Groups(rest, maxChars), maxChars, e);
      }
    }
  }

  lemma {:induction false} LastTimedIs(entries: seq<Entry>, i: nat)
    requires i < |entries| && Timed(entries[i]) && forall m :: i < m < |entries| ==> !Timed(entries[m])
    ensures LastUserTime(entries) == entries[i].time
  {
    if i < |entries| - 1 {
      LastTimedIs(entries[..|entries| - 1], i);
    }
  }

  lemma WholeStaysClose(before: seq<Entry>, group: seq<Entry>, maxChars: int, i: nat, j: nat)
    requires Whole(before, group, maxChars)
    requires i < j < |group| && Timed(group[i]) && Timed(group[j]) && forall m :: i < m < j ==> !Timed(group[m])
    ensures group[j].time - group[i].time <= TASK_GAP_MS
  {
    var seen := before + group[..j];
    hide LastUserTime;
    hide TotalSize;
    assert seen[|before| + i] == group[i];
    forall m | |before| + i < m < |seen| ensures !Timed(seen[m]) {
      assert seen[m] == group[m - |before|];
    }
    LastTimedIs(seen, |before| + i);
  }

  /** Within one segment, two consecutive user prompts with a time are at most the task gap apart. */
  lemma {:induction false} PromptsStayClose(groups: seq<seq<Entry>>, maxChars: int, k: nat, i: nat, j: nat)
    requires Greedy(groups, maxChars) && k < |groups| && i < j < |groups[k]|
    requires Timed(groups[k][i]) && Timed(groups[k][j]) && forall m :: i < m < j ==> !Timed(groups[k][m])
    ensures groups[k][j].time - groups[k][i].time <= TASK_GAP_MS
  {
    hide Whole;
    hide Cuts;
    if k == |groups| - 1 {
      WholeStaysClose(Flat(groups[..k]), groups[k], maxChars, i, j);
    } else {
      PromptsStayClose(groups[..|groups| - 1], maxChars, k, i, j);
    }
  }

  /** A group is left exactly when it should be. It stays together at every timed prompt that follows another within
      five minutes while the group is within its budget; and the next group begins with a timed prompt that does not:
      it comes more than five minutes after the last one, or finds the budget exceeded. */
  lemma {:induction false} GroupsEndWhenDue(groups: seq<seq<Entry>>, maxChars: int, k: nat)
    requires Greedy(groups, maxChars) && k < |groups|
    ensures groups[k] != []
    ensures forall j :: 0 < j < |groups[k]| && groups[k][j].kind == User && groups[k][j].time > 0 ==>
              var last := LastUserTime(Flat(groups[..k]) + groups[k][..j]);
              last > 0 ==> groups[k][j].time - last <= 300_000 && TotalSize(groups[k][..j]) <= maxChars
    ensures k > 0 ==>
              var first, last := groups[k][0], LastUserTime(Flat(groups[..k]));
              && first.kind == User && first.time > 0 && last > 0
              && (first.time - last > 300_000 || TotalSize(groups[k - 1]) > maxChars)
  {
    hide LastUserTime;
    hide TotalSize;
    hide Flat;
    var n := |groups| - 1;
    if k < n {
      GroupsEndWhenDue(groups[..n], maxChars, k);
      assert groups[..n][..k] == groups[..k];
    } else {
      assert k > 0 ==> groups[..k][|groups[..k]| - 1] == groups[k - 1];
      forall j | 0 < j < |groups[k]| && Timed(groups[k][j])
        ensures !Cuts(LastUserTime(Flat(groups[..k]) + groups[k][..j]), TotalSize(groups[k][..j]), maxChars,
                      groups[k][j])
      {
      }
    }
  }

  // ---------------------------------------------------------------- nothing is lost or reordered

  function Of(p: Part, s: Segment): seq<string> {
    match p
    case Prompts => s.prompts
    case Texts => s.texts
    case Tools => s.tools
  }

  function Joined(p: Part, segments: seq<Segment>): seq<string> {
    if segments == [] then [] else Joined(p, segments[..|segments| - 1]) + Of(p, segments[|segments| - 1])
  }

  lemma {:induction false} AllConcat(p: Part, a: seq<Entry>, b: seq<Entry>)
    ensures All(p, a + b) == All(p, a) + All(p, b)
  {
    if b == [] {
      assert a + b == a && All(p, a) + [] == All(p, a);
    } else {
      var e, rest := b[|b| - 1], b[..|b| - 1];
      AllConcat(p, a, rest);
      assert (a + b)[..|a + b| - 1] == a + rest && (a + b)[|a + b| - 1] == e;
      hide In;
      assert (All(p, a) + All(p, rest)) + In(p, e) == All(p, a) + (All(p, rest) + In(p, e));
    }
  }

  lemma {:induction false} RelevantIsAll(p: Part, entries: seq<Entry>)
    ensures All(p, Relevant(entries)) == All(p, entries)
  {
    if entries != [] {
      var e, rest := entries[|entries| - 1], entries[..|entries| - 1];
      RelevantIsAll(p, rest);
      assert (Relevant(rest) + [e])[..|Relevant(rest)|] == Relevant(rest);
    }
  }

  lemma {:induction false} BuiltCarries(p: Part, groups: seq<seq<Entry>>, now: int)
    ensures Joined(p, Built(groups, now)) == All(p, Flat(groups))
  {
    if groups != [] {
      var before, last := groups[..|groups| - 1], groups[|groups| - 1];
      var built := Built(before, now);
      var s := SegmentOf(|built|, Flat(before), last, StartOf(last, now));
      BuiltCarries(p, before, now);
      AllConcat(p, Flat(before), last);
      assert Of(p, s) == All(p, last);
      assert (built + [s])[..|built|] == built;
      hide All;
      hide SegmentOf;
    }
  }

  /** The segments' prompts, answers and tool calls, one after the other, are those of the whole stream. */
  lemma NothingIsLost(entries: seq<Entry>, maxChars: int, now: int)
    ensures forall p :: Joined(p, Built(Groups(entries, maxChars), now)) == All(p, entries)
  {
    forall p ensures Joined(p, Built(Groups(entries, maxChars), now)) == All(p, entries) {
      BuiltCarries(p, Groups(entries, maxChars), now);
      GroupsAreGreedy(entries, maxChars);
      RelevantIsAll(p, entries);
    }
  }

  /** Segment `i` is that of group `k`, and the groups before it made the segments before it. */
  predicate MadeFrom(groups: seq<seq<Entry>>, now: int, i: nat, k: nat)
    requires i < |Built(groups, now)| && k < |groups|
  {
    && |Built(groups[..k], now)| == i
    && Built(groups, now)[i] == SegmentOf(i, Flat(groups[..k]), groups[k], StartOf(groups[k], now))
    && !Empty(Built(groups, now)[i])
  }

  /** Every segment is that of one group with content, in order, under its own number. */
  lemma {:induction false} SegmentsAreGroups(groups: seq<seq<Entry>>, now: int, i: nat)
    requires i < |Built(groups, now)|
    ensures exists k :: 0 <= k < |groups| && MadeFrom(groups, now, i, k)
  {
    var last := |groups| - 1;
    var before := groups[..last];
    hide SegmentOf;
    hide Empty;
    if i == |Built(before, now)| {
      assert MadeFrom(groups, now, i, last);
    } else {
      SegmentsAreGroups(before, now, i);
      var k :| 0 <= k < |before| && MadeFrom(before, now, i, k);
      assert groups[..k] == before[..k] && groups[k] == before[k];
      assert Built(groups, now)[i] == Built(before, now)[i];
      assert MadeFrom(groups, now, i, k);
    }
  }

  /** A segment ends with the latest time any of its entries has, or where it starts if none is later. */
  lemma {:induction false} EndIsLatest(start: int, group: seq<Entry>)
    ensures forall i :: 0 <= i < |group| && group[i].time > 0 ==> group[i].time <= EndOf(start, group)
    ensures EndOf(start, group) == start
         || exists i :: 0 <= i < |group| && group[i].time > 0 && group[i].time == EndOf(start, group)
  {
    if group != [] {
      var rest := group[..|group| - 1];
      EndIsLatest(start, rest);
      forall i | 0 <= i < |group| && group[i].time > 0 ensures group[i].time <= EndOf(start, group) {
        assert i < |rest| ==> rest[i] == group[i];
      }
      if EndOf(start, group) == EndOf(start, rest) != start {
        var i :| 0 <= i < |rest| && rest[i].time > 0 && rest[i].time == EndOf(start, rest);
        assert group[i].time == EndOf(start, group);
      }
    }
  }

  // ---------------------------------------------------------------- what one entry brings

  /** A prompt is heard if a user entry has one. */
  predicate Heard(e: Entry) {
    e.kind == User && e.prompt != []
  }

  /** One more entry brings its prompt, up to five hundred characters of it, or its answers and tool calls, or nothing;
      only what user and assistant entries cost is counted. */
  lemma EntryBrings(before: seq<Entry>, e: Entry)
    ensures Heard(e) ==>
              exists x: string :: x <= e.prompt && |x| == (if |e.prompt| < 500 then |e.prompt| else 500)
                && All(Prompts, before + [e]) == All(Prompts, before) + [x]
    ensures !Heard(e) ==> All(Prompts, before + [e]) == All(Prompts, before)
    ensures e.kind == Assistant ==>
              && All(Texts, before + [e]) == All(Texts, before) + e.texts
              && All(Tools, before + [e]) == All(Tools, before) + e.tools
    ensures e.kind != Assistant ==>
              All(Texts, before + [e]) == All(Texts, before) && All(Tools, before + [e]) == All(Tools, before)
    ensures AllTokens(before + [e]) - AllTokens(before) == if e.kind == User || e.kind == Assistant then e.tokens else 0
  {
    assert (before + [e])[..|before|] == before;
    if Heard(e) {
      assert Clipped(e.prompt) <= e.prompt;
    }
  }

  function Glued(texts: seq<string>): string {
    if texts == [] then [] else Glued(texts[..|texts| - 1]) + texts[|texts| - 1]
  }

  lemma {:induction false} GluedConcat(a: seq<string>, b: seq<string>)
    ensures |Glued(a + b)| == |Glued(a)| + |Glued(b)|
  {
    if b == [] {
      assert a + b == a;
    } else {
      GluedConcat(a, b[..|b| - 1]);
      assert (a + b)[..|a + b| - 1] == a + b[..|b| - 1];
    }
  }

  lemma {:induction false} LengthsGlued(texts: seq<string>)
    ensures Lengths(texts) == |Glued(texts)|
  {
    if texts != [] {
      LengthsGlued(texts[..|texts| - 1]);
    }
  }

  /** The running size of a group is the number of characters in its prompts, answers and tool calls. */
  lemma {:induction false} SizeIsLength(group: seq<Entry>)
    ensures TotalSize(group) ==
              |Glued(All(Prompts, group))| + |Glued(All(Texts, group))| + |Glued(All(Tools, group))|
  {
    if group != [] {
      var rest, e := group[..|group| - 1], group[|group| - 1];
      SizeIsLength(rest);
      LengthsGlued(In(Prompts, e));
      LengthsGlued(In(Texts, e));
      LengthsGlued(In(Tools, e));
      GluedConcat(All(Prompts, rest), In(Prompts, e));
      GluedConcat(All(Texts, rest), In(Texts, e));
      GluedConcat(All(Tools, rest), In(Tools, e));
      hide Glued;
      hide In;
      hide Lengths;
    }
  }
}
