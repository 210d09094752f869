/** The runtime trace summary: begin and end markers of commands in a log, matched last-in first-out per
    command, with the commands begun inside each other and the parents of phase markers. */
module TraceNesting {
  import opened Options

  /** Where a marker comes from and the command it is about. */
  type Key = (string, string)

  /** A line of the log: one of the markers, or anything else. */
  datatype Entry =
    | Begin(key: Key)
    | End(key: Key, rc: int, ts: nat)
    | Phase(key: Key)
    | Other

  datatype Ending = Ending(line: nat, rc: int, ts: nat)

  datatype Event = Event(key: Key, start: nat, end: Option<Ending>, children: seq<nat>)

  datatype PhaseMarker = PhaseMarker(line: nat, key: Key, parent: Option<nat>)

  /** The variables of the parsing loop. */
  datatype Trace = Trace(events: seq<Event>, open: map<Key, seq<nat>>, active: seq<nat>, phases: seq<PhaseMarker>)

  // What the result means

  predicate Increasing(s: seq<nat>) { forall i, j :: 0 <= i < j < |s| ==> s[i] < s[j] }

  /** Begun before the line and not ended before it. */
  predicate OpenAt(e: Event, line: nat) { e.start < line && (e.end.Some? ==> line < e.end.value.line) }

  predicate EndsAt(e: Event, line: nat) { e.end.Some? && e.end.value.line == line }

  function Stack(open: map<Key, seq<nat>>, key: Key): (s: seq<nat>) { if key in open then open[key] else [] }

  function Begins(log: seq<Entry>): (n: nat) {
    if log == [] then 0 else Begins(log[..|log| - 1]) + (if log[|log| - 1].Begin? then 1 else 0)
  }

  /** Events are the begin lines in order. */
  ghost predicate EventsAreBegins(log: seq<Entry>, events: seq<Event>) {
    && |events| == Begins(log)
    && (forall i :: 0 <= i < |events| ==> events[i].start < |log| && log[events[i].start] == Begin(events[i].key))
    && (forall i, j :: 0 <= i < j < |events| ==> events[i].start < events[j].start)
  }

  /** An event ends on a later end line of its own key, no two on the same line. */
  ghost predicate EndsAreEnds(log: seq<Entry>, events: seq<Event>) {
    && (forall i :: 0 <= i < |events| && events[i].end.Some? ==>
          var e := events[i].end.value;
          events[i].start < e.line < |log| && log[e.line] == End(events[i].key, e.rc, e.ts))
    && (forall i, j :: 0 <= i < j < |events| && events[i].end.Some? && events[j].end.Some? ==>
          events[i].end.value.line != events[j].end.value.line)
  }

  /** Intervals of the same key are nested or disjoint. */
  ghost predicate Nested(events: seq<Event>) {
    forall i, j :: 0 <= i < j < |events| && events[i].key == events[j].key && events[i].end.Some?
                   && events[j].start < events[i].end.value.line ==>
                     events[j].end.Some? && events[j].end.value.line < events[i].end.value.line
  }

  /** An end line is passed over only when nothing of its key is open. */
  ghost predicate EndsUsed(log: seq<Entry>, events: seq<Event>) {
    forall l, i :: 0 <= l < |log| && log[l].End? && 0 <= i < |events| && events[i].key == log[l].key && OpenAt(events[i], l) ==>
                     exists j :: 0 <= j < |events| && EndsAt(events[j], l)
  }

  ghost predicate ChildrenOf(events: seq<Event>, p: nat)
    requires p < |events|
  {
    && Increasing(events[p].children)
    && (forall c: nat :: c in events[p].children <==> p < c < |events| && OpenAt(events[p], events[c].start))
  }

  /** The children of an event are exactly the events begun while it was open, in order. */
  ghost predicate ChildrenAreInside(events: seq<Event>) { forall p :: 0 <= p < |events| ==> ChildrenOf(events, p) }

  /** The active list is the events not ended, in order. */
  ghost predicate ActiveAreOpen(events: seq<Event>, active: seq<nat>) {
    Increasing(active) && forall i: nat :: i in active <==> i < |events| && events[i].end.None?
  }

  /** Each stack holds, in order, the active events of its key. */
  ghost predicate StacksAreActive(events: seq<Event>, active: seq<nat>, open: map<Key, seq<nat>>)
    requires ActiveAreOpen(events, active)
  {
    forall k: Key :: Increasing(Stack(open, k)) && forall i: nat :: i in Stack(open, k) <==> i in active && events[i].key == k
  }

  /** The parent of a phase marker is the latest event of its key open on that line, if any is. */
  ghost predicate ParentIs(events: seq<Event>, m: PhaseMarker) {
    match m.parent
    case None => forall i :: 0 <= i < |events| && events[i].key == m.key ==> !OpenAt(events[i], m.line)
    case Some(p) =>
      && p < |events| && events[p].key == m.key && OpenAt(events[p], m.line)
      && forall i :: p < i < |events| && events[i].key == m.key ==> !OpenAt(events[i], m.line)
  }

  ghost predicate PhasesHaveParents(log: seq<Entry>, events: seq<Event>, phases: seq<PhaseMarker>) {
    forall i :: 0 <= i < |phases| ==> phases[i].line < |log| && log[phases[i].line] == Phase(phases[i].key) && ParentIs(events, phases[i])
  }

  function PhaseLines(log: seq<Entry>): (n: nat) {
    if log == [] then 0 else PhaseLines(log[..|log| - 1]) + (if log[|log| - 1].Phase? then 1 else 0)
  }

  predicate MarkedAt(phases: seq<PhaseMarker>, line: nat) { exists i :: 0 <= i < |phases| && phases[i].line == line }

  /** Phase markers are the phase lines in order, every one of them. */
  ghost predicate PhasesAreLines(log: seq<Entry>, phases: seq<PhaseMarker>) {
    && |phases| == PhaseLines(log)
    && (forall i :: 0 <= i < |phases| ==> phases[i].line < |log|)
    && (forall i, j :: 0 <= i < j < |phases| ==> phases[i].line < phases[j].line)
    && (forall l :: 0 <= l < |log| && log[l].Phase? ==> MarkedAt(phases, l))
  }

  ghost predicate Inv(log: seq<Entry>, t: Trace) {
    && EventsAreBegins(log, t.events) && EndsAreEnds(log, t.events) && Nested(t.events) && EndsUsed(log, t.events)
    && ChildrenAreInside(t.events) && ActiveAreOpen(t.events, t.active) && StacksAreActive(t.events, t.active, t.open)
    && PhasesHaveParents(log, t.events, t.phases) && PhasesAreLines(log, t.phases)
  }

  // One line

  function WithChild(events: seq<Event>, active: seq<nat>, id: nat): (es: seq<Event>)
    ensures |es| == |events|
  {
    seq(|events|, i requires 0 <= i < |events| =>
      if i in active then events[i].(children := events[i].children + [id]) else events[i])
  }

  function Began(t: Trace, line: nat, key: Key): (u: Trace) {
    var id := |t.events|;
    Trace(WithChild(t.events, t.active, id) + [Event(key, line, None, [])], t.open[key := Stack(t.open, key) + [id]], t.active + [id], t.phases)
  }

  /** The list without one member. */
  function Without(s: seq<nat>, x: nat): (r: seq<nat>) {
    if s == [] then [] else if s[0] == x then s[1..] else [s[0]] + Without(s[1..], x)
  }

  function Ended(t: Trace, line: nat, key: Key, rc: int, ts: nat): (u: Trace) {
    var stack := Stack(t.open, key);
    if stack == [] || stack[|stack| - 1] >= |t.events| then t
    else
      var id := stack[|stack| - 1];
      Trace(t.events[id := t.events[id].(end := Some(Ending(line, rc, ts)))], t.open[key := stack[..|stack| - 1]], Without(t.active, id), t.phases)
  }

  /** The last active event of a key. */
  function Latest(events: seq<Event>, active: seq<nat>, key: Key): (p: Option<nat>) {
    if active == [] then None
    else
      var id := active[|active| - 1];
      if id < |events| && events[id].key == key then Some(id) else Latest(events, active[..|active| - 1], key)
  }

  function Step(t: Trace, line: nat, e: Entry): (u: Trace) {
    match e
    case Begin(key) => Began(t, line, key)
    case End(key, rc, ts) => Ended(t, line, key, rc, ts)
    case Phase(key) => t.(phases := t.phases + [PhaseMarker(line, key, Latest(t.events, t.active, key))])
    case Other => t
  }

  // What every line keeps

  lemma BeginsSnoc(log: seq<Entry>, e: Entry)
    ensures Begins(log + [e]) == Begins(log) + if e.Begin? then 1 else 0
  {
    assert (log + [e])[..|log|] == log;
  }

  lemma NoPhaseLine(log: seq<Entry>, e: Entry, phases: seq<PhaseMarker>)
    requires PhasesAreLines(log, phases) && !e.Phase?
    ensures PhasesAreLines(log + [e], phases)
  {
    hide MarkedAt;
    var longer := log + [e];
    assert longer[..|log|] == log;
    forall l | 0 <= l < |longer| && longer[l].Phase? ensures MarkedAt(phases, l) {
      assert longer[l] == log[l];
    }
  }

  lemma OnePhaseLine(log: seq<Entry>, m: PhaseMarker, phases: seq<PhaseMarker>)
    requires PhasesAreLines(log, phases) && m.line == |log|
    ensures PhasesAreLines(log + [Phase(m.key)], phases + [m])
  {
    var longer, more := log + [Phase(m.key)], phases + [m];
    assert longer[..|log|] == log;
    forall l | 0 <= l < |longer| && longer[l].Phase? ensures MarkedAt(more, l) {
      if l < |log| {
        assert longer[l] == log[l] && MarkedAt(phases, l);
        var i :| 0 <= i < |phases| && phases[i].line == l;
        assert more[i] == phases[i];
      } else {
        assert more[|phases|] == m;
      }
    }
  }

  /** Same keys, starts and ends. */
  ghost predicate SameSpans(a: seq<Event>, b: seq<Event>) {
    |a| <= |b| && forall i :: 0 <= i < |a| ==> b[i].key == a[i].key && b[i].start == a[i].start && b[i].end == a[i].end
  }

  /** A line that leaves the events as they are. */
  lemma QuietLine(log: seq<Entry>, t: Trace, e: Entry)
    requires Inv(log, t) && !e.Begin?
    requires e.End? ==> Stack(t.open, e.key) == []
    ensures EventsAreBegins(log + [e], t.events) && EndsAreEnds(log + [e], t.events) && EndsUsed(log + [e], t.events)
    ensures PhasesHaveParents(log + [e], t.events, t.phases)
  {
    hide ChildrenAreInside, Nested, Begins, Increasing, PhasesAreLines;
    BeginsSnoc(log, e);
    var longer := log + [e];
    if e.End? {
      assert forall i: nat :: i in Stack(t.open, e.key) <==> i in t.active && t.events[i].key == e.key;
      assert forall i: nat :: i < |t.events| && t.events[i].key == e.key ==> i !in t.active;
    }
    forall l, i | 0 <= l < |longer| && longer[l].End? && 0 <= i < |t.events| && t.events[i].key == longer[l].key && OpenAt(t.events[i], l)
      ensures exists j :: 0 <= j < |t.events| && EndsAt(t.events[j], l)
    {
      if l < |log| {
        assert longer[l] == log[l];
      }
    }
  }

  /** One more event, begun on the line being read. */
  ghost predicate OneMore(log: seq<Entry>, a: seq<Event>, b: seq<Event>, key: Key) {
    |b| == |a| + 1 && SameSpans(a, b) && b[|a|].key == key && b[|a|].start == |log| && b[|a|].end.None?
  }

  lemma OneMoreBegins(log: seq<Entry>, a: seq<Event>, b: seq<Event>, key: Key)
    requires EventsAreBegins(log, a) && OneMore(log, a, b, key)
    ensures EventsAreBegins(log + [Begin(key)], b)
  {
    hide Begins;
    BeginsSnoc(log, Begin(key));
  }

  lemma OneMoreEnds(log: seq<Entry>, a: seq<Event>, b: seq<Event>, key: Key)
    requires EventsAreBegins(log, a) && EndsAreEnds(log, a) && Nested(a) && OneMore(log, a, b, key)
    ensures EndsAreEnds(log + [Begin(key)], b) && Nested(b)
  {
    hide EventsAreBegins;
  }

  lemma OneMoreUsed(log: seq<Entry>, a: seq<Event>, b: seq<Event>, key: Key)
    requires EndsUsed(log, a) && OneMore(log, a, b, key)
    ensures EndsUsed(log + [Begin(key)], b)
  {
    var longer := log + [Begin(key)];
    forall l, i | 0 <= l < |longer| && longer[l].End? && 0 <= i < |b| && b[i].key == longer[l].key && OpenAt(b[i], l)
      ensures exists j :: 0 <= j < |b| && EndsAt(b[j], l)
    {
      assert l < |log| && longer[l] == log[l] && i < |a| && OpenAt(a[i], l);
      var j :| 0 <= j < |a| && EndsAt(a[j], l);
      assert EndsAt(b[j], l);
    }
  }

  lemma BeganIsOneMore(log: seq<Entry>, t: Trace, key: Key)
    ensures OneMore(log, t.events, Began(t, |log|, key).events, key)
  {}

  lemma BeganEvents(log: seq<Entry>, t: Trace, key: Key)
    requires EventsAreBegins(log, t.events) && EndsAreEnds(log, t.events) && Nested(t.events) && EndsUsed(log, t.events)
    ensures var es := Began(t, |log|, key).events;
            && OneMore(log, t.events, es, key)
            && EventsAreBegins(log + [Begin(key)], es) && EndsAreEnds(log + [Begin(key)], es) && Nested(es) && EndsUsed(log + [Begin(key)], es)
  {
    hide EventsAreBegins, EndsAreEnds, Nested, EndsUsed, OneMore, Began;
    var es := Began(t, |log|, key).events;
    BeganIsOneMore(log, t, key);
    OneMoreBegins(log, t.events, es, key);
    OneMoreEnds(log, t.events, es, key);
    OneMoreUsed(log, t.events, es, key);
  }

  lemma BeganChildren(log: seq<Entry>, t: Trace, key: Key)
    requires EventsAreBegins(log, t.events) && EndsAreEnds(log, t.events) && ChildrenAreInside(t.events) && ActiveAreOpen(t.events, t.active)
    ensures ChildrenAreInside(Began(t, |log|, key).events)
  {
    hide Begins, Increasing, ChildrenOf;
    var es := Began(t, |log|, key).events;
    forall p | 0 <= p < |es| ensures ChildrenOf(es, p) {
      if p < |t.events| {
        assert ChildrenOf(t.events, p);
        OlderChildren(log, t, key, p);
      } else {
        NoChildren(es, p);
      }
    }
  }

  /** An event begun before gets the new one as a child exactly when it is still open. */
  lemma OlderChildren(log: seq<Entry>, t: Trace, key: Key, p: nat)
    requires EventsAreBegins(log, t.events) && EndsAreEnds(log, t.events) && ActiveAreOpen(t.events, t.active)
    requires p < |t.events| && ChildrenOf(t.events, p)
    ensures ChildrenOf(Began(t, |log|, key).events, p)
  {
    hide Begins, Increasing;
    var es, id := Began(t, |log|, key).events, |t.events|;
    var cs := t.events[p].children;
    IncreasingSnoc(cs, id);
    assert OpenAt(es[p], es[id].start) <==> p in t.active;
    assert es[p].children == if p in t.active then cs + [id] else cs;
    assert forall c :: 0 <= c < id ==> es[c].start == t.events[c].start && (OpenAt(es[p], es[c].start) <==> OpenAt(t.events[p], t.events[c].start));
  }

  lemma NoChildren(es: seq<Event>, p: nat)
    requires p == |es| - 1 && es[p].children == []
    ensures ChildrenOf(es, p)
  {
    IncreasingNone();
  }

  lemma IncreasingNone()
    ensures Increasing([])
  {}

  lemma IncreasingSnoc(s: seq<nat>, x: nat)
    requires Increasing(s) && forall i: nat :: i in s ==> i < x
    ensures Increasing(s + [x])
  {
    assert forall i :: 0 <= i < |s| ==> s[i] in s;
  }

  lemma BeganStacks(t: Trace, line: nat, key: Key)
    requires ActiveAreOpen(t.events, t.active) && StacksAreActive(t.events, t.active, t.open)
    ensures var u := Began(t, line, key); ActiveAreOpen(u.events, u.active) && StacksAreActive(u.events, u.active, u.open)
  {
    hide Increasing;
    var u := Began(t, line, key);
    var id := |t.events|;
    assert SameSpans(t.events, u.events);
    IncreasingSnoc(t.active, id);
    forall i: nat ensures i in u.active <==> i < |u.events| && u.events[i].end.None? {
      assert i in u.active <==> i in t.active || i == id;
    }
    forall k: Key
      ensures Increasing(Stack(u.open, k)) && forall i: nat :: i in Stack(u.open, k) <==> i in u.active && u.events[i].key == k
    {
      var old_ := Stack(t.open, k);
      assert Increasing(old_) && forall i: nat :: i in old_ <==> i in t.active && t.events[i].key == k;
      if k == key {
        IncreasingSnoc(old_, id);
        assert Stack(u.open, k) == old_ + [id];
      } else {
        assert Stack(u.open, k) == old_;
      }
    }
  }

  lemma SpansKeepPhases(log: seq<Entry>, e: Entry, a: seq<Event>, b: seq<Event>, phases: seq<PhaseMarker>)
    requires PhasesHaveParents(log, a, phases) && |a| <= |b|
    requires forall i, l :: 0 <= i < |a| && 0 <= l < |log| ==> b[i].key == a[i].key && (OpenAt(b[i], l) <==> OpenAt(a[i], l))
    requires forall i, l :: |a| <= i < |b| && 0 <= l < |log| ==> !OpenAt(b[i], l)
    ensures PhasesHaveParents(log + [e], b, phases)
  {
    hide OpenAt;
    forall i | 0 <= i < |phases| ensures ParentIs(b, phases[i]) && (log + [e])[phases[i].line] == log[phases[i].line] {
      assert ParentIs(a, phases[i]);
    }
  }

  lemma BeginKeeps(log: seq<Entry>, t: Trace, key: Key)
    requires Inv(log, t)
    ensures Inv(log + [Begin(key)], Began(t, |log|, key))
  {
    BeganEvents(log, t, key);
    BeganChildren(log, t, key);
    BeganStacks(t, |log|, key);
    var u := Began(t, |log|, key);
    assert forall i, l :: 0 <= i < |t.events| && 0 <= l < |log| ==> (OpenAt(u.events[i], l) <==> OpenAt(t.events[i], l));
    hide EventsAreBegins, EndsAreEnds, Nested, EndsUsed, ChildrenAreInside, Increasing, PhasesAreLines;
    NoPhaseLine(log, Begin(key), t.phases);
    SpansKeepPhases(log, Begin(key), t.events, u.events, t.phases);
  }

  // An end line that ends an event

  /** The event ended is the latest open one of its key. */
  lemma TopIsLatest(t: Trace, key: Key)
    requires ActiveAreOpen(t.events, t.active) && StacksAreActive(t.events, t.active, t.open) && Stack(t.open, key) != []
    ensures var stack := Stack(t.open, key);
            var id := stack[|stack| - 1];
            && id < |t.events| && t.events[id].key == key && t.events[id].end.None?
            && forall j :: id < j < |t.events| && t.events[j].key == key ==> t.events[j].end.Some?
  {
    var stack := Stack(t.open, key);
    var id := stack[|stack| - 1];
    LastIsGreatest(stack);
    assert id in stack;
    assert forall j: nat :: j in stack <==> j in t.active && t.events[j].key == key;
  }

  lemma LastIsGreatest(s: seq<nat>)
    requires s != [] && Increasing(s)
    ensures forall x: nat :: x in s ==> x <= s[|s| - 1]
  {}

  /** One event closed on the line being read. */
  ghost predicate Closed(log: seq<Entry>, a: seq<Event>, b: seq<Event>, id: nat, e: Entry) {
    && e.End? && id < |a| && a[id].key == e.key && a[id].end.None?
    && b == a[id := a[id].(end := Some(Ending(|log|, e.rc, e.ts)))]
    && forall j :: id < j < |a| && a[j].key == e.key ==> a[j].end.Some?
  }

  lemma ClosedBegins(log: seq<Entry>, a: seq<Event>, b: seq<Event>, id: nat, e: Entry)
    requires EventsAreBegins(log, a) && Closed(log, a, b, id, e)
    ensures EventsAreBegins(log + [e], b)
  {
    hide Begins;
    BeginsSnoc(log, e);
  }

  lemma ClosedEnds(log: seq<Entry>, a: seq<Event>, b: seq<Event>, id: nat, e: Entry)
    requires EventsAreBegins(log, a) && EndsAreEnds(log, a) && Closed(log, a, b, id, e)
    ensures EndsAreEnds(log + [e], b)
  {}

  lemma ClosedNested(log: seq<Entry>, a: seq<Event>, b: seq<Event>, id: nat, e: Entry)
    requires EndsAreEnds(log, a) && Nested(a) && Closed(log, a, b, id, e)
    ensures Nested(b)
  {}

  lemma ClosedUsed(log: seq<Entry>, a: seq<Event>, b: seq<Event>, id: nat, e: Entry)
    requires EventsAreBegins(log, a) && EndsUsed(log, a) && Closed(log, a, b, id, e)
    ensures EndsUsed(log + [e], b)
  {
    hide Begins;
    var longer := log + [e];
    forall l, i | 0 <= l < |longer| && longer[l].End? && 0 <= i < |b| && b[i].key == longer[l].key && OpenAt(b[i], l)
      ensures exists j :: 0 <= j < |b| && EndsAt(b[j], l)
    {
      if l == |log| {
        assert EndsAt(b[id], l);
      } else {
        assert longer[l] == log[l] && OpenAt(a[i], l);
        var j :| 0 <= j < |a| && EndsAt(a[j], l);
        assert EndsAt(b[j], l);
      }
    }
  }

  lemma ClosedChildren(log: seq<Entry>, a: seq<Event>, b: seq<Event>, id: nat, e: Entry)
    requires EventsAreBegins(log, a) && ChildrenAreInside(a) && Closed(log, a, b, id, e)
    ensures ChildrenAreInside(b)
  {
    hide Begins, Increasing;
    forall p | 0 <= p < |b| ensures ChildrenOf(b, p) {
      assert ChildrenOf(a, p);
      assert forall c :: 0 <= c < |a| ==> b[c].start == a[c].start && (OpenAt(b[p], a[c].start) <==> OpenAt(a[p], a[c].start));
    }
  }

  lemma IncreasingTail(s: seq<nat>)
    requires s != [] && Increasing(s)
    ensures Increasing(s[1..]) && (forall i: nat :: i in s[1..] ==> s[0] < i)
    ensures forall i: nat :: i in s <==> i == s[0] || i in s[1..]
  {
    var rest := s[1..];
    assert s == [s[0]] + rest;
    assert forall i :: 0 <= i < |rest| ==> rest[i] == s[i + 1];
  }

  lemma IncreasingCons(x: nat, s: seq<nat>)
    requires Increasing(s) && forall i: nat :: i in s ==> x < i
    ensures Increasing([x] + s)
  {
    assert forall i :: 0 <= i < |s| ==> s[i] in s;
  }

  lemma {:induction false} WithoutIs(s: seq<nat>, x: nat)
    requires Increasing(s)
    ensures Increasing(Without(s, x)) && forall i: nat :: i in Without(s, x) <==> i in s && i != x
  {
    hide Increasing;
    if s != [] {
      IncreasingTail(s);
      WithoutIs(s[1..], x);
      if s[0] != x {
        IncreasingCons(s[0], Without(s[1..], x));
      }
    }
  }

  lemma ClosedStacks(log: seq<Entry>, t: Trace, u: Trace, id: nat, e: Entry)
    requires ActiveAreOpen(t.events, t.active) && StacksAreActive(t.events, t.active, t.open)
    requires Closed(log, t.events, u.events, id, e)
    requires var stack := Stack(t.open, e.key);
             stack != [] && stack[|stack| - 1] == id && u.open == t.open[e.key := stack[..|stack| - 1]] && u.active == Without(t.active, id)
    ensures ActiveAreOpen(u.events, u.active) && StacksAreActive(u.events, u.active, u.open)
  {
    hide Without;
    WithoutIs(t.active, id);
    forall k: Key
      ensures Increasing(Stack(u.open, k)) && forall i: nat :: i in Stack(u.open, k) <==> i in u.active && u.events[i].key == k
    {
      var was := Stack(t.open, k);
      assert Increasing(was) && forall i: nat :: i in was <==> i in t.active && t.events[i].key == k;
      if k == e.key {
        ButLast(was);
      }
    }
  }

  lemma ButLast(s: seq<nat>)
    requires s != [] && Increasing(s)
    ensures var r := s[..|s| - 1];
            Increasing(r) && forall i: nat :: i in r <==> i in s && i != s[|s| - 1]
  {
    var r := s[..|s| - 1];
    assert s == r + [s[|s| - 1]];
  }

  lemma EndKeeps(log: seq<Entry>, t: Trace, e: Entry)
    requires Inv(log, t) && e.End?
    ensures Inv(log + [e], Ended(t, |log|, e.key, e.rc, e.ts))
  {
    hide Increasing, Without, PhasesAreLines;
    NoPhaseLine(log, e, t.phases);
    var stack := Stack(t.open, e.key);
    if stack == [] {
      QuietLine(log, t, e);
    } else {
      TopIsLatest(t, e.key);
      var id := stack[|stack| - 1];
      var u := Ended(t, |log|, e.key, e.rc, e.ts);
      assert Closed(log, t.events, u.events, id, e);
      assert forall i, l :: 0 <= i < |t.events| && 0 <= l < |log| ==> (OpenAt(u.events[i], l) <==> OpenAt(t.events[i], l));
      hide EventsAreBegins, EndsAreEnds, Nested, EndsUsed, ChildrenAreInside;
      SpansKeepPhases(log, e, t.events, u.events, t.phases);
      ClosedBegins(log, t.events, u.events, id, e);
      ClosedEnds(log, t.events, u.events, id, e);
      ClosedNested(log, t.events, u.events, id, e);
      ClosedUsed(log, t.events, u.events, id, e);
      ClosedChildren(log, t.events, u.events, id, e);
      ClosedStacks(log, t, u, id, e);
    }
  }

  // Phase markers

  lemma {:induction false} LatestIs(events: seq<Event>, active: seq<nat>, key: Key)
    requires Increasing(active) && forall i: nat :: i in active ==> i < |events|
    ensures match Latest(events, active, key)
            case None => forall i: nat :: i in active ==> events[i].key != key
            case Some(p) => p in active && events[p].key == key && forall i: nat :: i in active && p < i ==> events[i].key != key
  {
    if active != [] {
      var rest := active[..|active| - 1];
      ButLast(active);
      LatestIs(events, rest, key);
      assert active[|active| - 1] in active;
      LastIsGreatest(active);
    }
  }

  lemma PhaseKeeps(log: seq<Entry>, t: Trace, key: Key)
    requires Inv(log, t)
    ensures Inv(log + [Phase(key)], Step(t, |log|, Phase(key)))
  {
    hide Begins, Nested, ChildrenAreInside, Increasing, EndsUsed, Latest, StacksAreActive, PhasesAreLines;
    QuietLine(log, t, Phase(key));
    LatestIs(t.events, t.active, key);
    var m := PhaseMarker(|log|, key, Latest(t.events, t.active, key));
    assert forall i :: 0 <= i < |t.events| ==> (OpenAt(t.events[i], |log|) <==> i in t.active);
    assert ParentIs(t.events, m);
    OnePhaseLine(log, m, t.phases);
  }

  lemma StepKeeps(log: seq<Entry>, t: Trace, e: Entry)
    requires Inv(log, t)
    ensures Inv(log + [e], Step(t, |log|, e))
  {
    hide Began, Ended;
    match e
    case Begin(key) =>
      hide Inv;
      BeginKeeps(log, t, key);
    case End(_, _, _) =>
      hide Inv;
      EndKeeps(log, t, e);
    case Phase(key) =>
      hide Inv;
      PhaseKeeps(log, t, key);
    case Other =>
      hide EventsAreBegins, EndsAreEnds, Nested, EndsUsed, ChildrenAreInside, PhasesHaveParents, PhasesAreLines;
      QuietLine(log, t, e);
      NoPhaseLine(log, e, t.phases);
  }

  // Whole logs

  const NOTHING: Trace := Trace([], map[], [], [])

  /** The trace of a log. */
  function Run(log: seq<Entry>): (t: Trace) {
    if log == [] then NOTHING else Step(Run(log[..|log| - 1]), |log| - 1, log[|log| - 1])
  }

  /** For every log: events are its begin lines, each ends at most once on an end line of its key, intervals
      of a key are nested or disjoint, no end line is wasted, children are exact, phase markers are its phase
      lines with exact parents, and the active list and the stacks hold what is open. */
  lemma {:induction false} RunHolds(log: seq<Entry>)
    ensures Inv(log, Run(log))
  {
    hide Step;
    if log == [] {
      IncreasingNone();
    } else {
      var rest := log[..|log| - 1];
      RunHolds(rest);
      hide Inv;
      StepKeeps(rest, Run(rest), log[|log| - 1]);
      assert log == rest + [log[|log| - 1]];
    }
  }

  /** The active events of a key, as a subsequence. */
  function OfKey(events: seq<Event>, active: seq<nat>, key: Key): (s: seq<nat>) {
    if active == [] then []
    else
      var rest := OfKey(events, active[..|active| - 1], key);
      var id := active[|active| - 1];
      if id < |events| && events[id].key == key then rest + [id] else rest
  }

  lemma {:induction false} OfKeyIs(events: seq<Event>, active: seq<nat>, key: Key)
    requires Increasing(active) && forall i: nat :: i in active ==> i < |events|
    ensures var s := OfKey(events, active, key);
            Increasing(s) && forall i: nat :: i in s <==> i in active && events[i].key == key
  {
    hide Increasing;
    if active == [] {
      IncreasingNone();
    } else {
      var rest := active[..|active| - 1];
      var id := active[|active| - 1];
      ButLast(active);
      OfKeyIs(events, rest, key);
      assert id in active;
      LastIsGreatest(active);
      if events[id].key == key {
        IncreasingSnoc(OfKey(events, rest, key), id);
      }
    }
  }

  lemma HasFirst(s: seq<nat>)
    ensures s != [] ==> s[0] in s
  {}

  /** Ordered lists with the same members are the same. */
  lemma {:induction false} SameMembers(a: seq<nat>, b: seq<nat>)
    requires Increasing(a) && Increasing(b) && forall i: nat :: i in a <==> i in b
    ensures a == b
  {
    HasFirst(a);
    HasFirst(b);
    if a != [] {
      var m, n := |a| - 1, |b| - 1;
      assert a[m] in b && b[n] in a;
      LastIsGreatest(a);
      LastIsGreatest(b);
      ButLast(a);
      ButLast(b);
      SameMembers(a[..m], b[..n]);
      assert a == a[..m] + [a[m]] && b == b[..n] + [b[n]];
    }
  }

  /** After every log, the open stack of each key is the subsequence of the active list with that key. */
  lemma StackIsSubsequence(log: seq<Entry>, key: Key)
    ensures var t := Run(log); Stack(t.open, key) == OfKey(t.events, t.active, key)
  {
    hide Run, OfKey, Increasing, EventsAreBegins, EndsAreEnds, Nested, EndsUsed, ChildrenAreInside, PhasesHaveParents, Stack;
    RunHolds(log);
    var t := Run(log);
    OfKeyIs(t.events, t.active, key);
    assert Increasing(Stack(t.open, key));
    SameMembers(Stack(t.open, key), OfKey(t.events, t.active, key));
  }

  // The parsing loop

  /** Gives the new event to every parent that is still open. */
  method AddChild(events: seq<Event>, active: seq<nat>, id: nat) returns (es: seq<Event>)
    requires ActiveAreOpen(events, active)
    ensures es == WithChild(events, active, id)
  {
    es := events;
    for k := 0 to |active|
      invariant |es| == |events|
      invariant forall i :: 0 <= i < |es| ==>
                  es[i] == if i in active[..k] then events[i].(children := events[i].children + [id]) else events[i]
    {
      var parent := active[k];
      assert parent in active;
      assert parent !in active[..k];
      if es[parent].end.None? {
        es := es[parent := es[parent].(children := es[parent].children + [id])];
      }
      assert active[..k + 1] == active[..k] + [parent];
    }
    assert active[..|active|] == active;
  }

  /** Drops the first occurrence. */
  method RemoveFirst(s: seq<nat>, x: nat) returns (r: seq<nat>)
    ensures r == Without(s, x)
  {
    var k := 0;
    while k < |s| && s[k] != x
      invariant k <= |s| && Without(s, x) == s[..k] + Without(s[k..], x)
    {
      assert s[k..][1..] == s[k + 1..];
      assert s[..k + 1] == s[..k] + [s[k]];
      k := k + 1;
    }
    if k < |s| {
      assert s[k..][1..] == s[k + 1..];
      return s[..k] + s[k + 1..];
    }
    assert s[k..] == [] && s[..k] == s;
    return s;
  }

  /** Searches the active list from its end. */
  method FindParent(events: seq<Event>, active: seq<nat>, key: Key) returns (p: Option<nat>)
    requires forall i: nat :: i in active ==> i < |events|
    ensures p == Latest(events, active, key)
  {
    var k := |active|;
    assert active[..k] == active;
    while k > 0
      invariant 0 <= k <= |active| && Latest(events, active, key) == Latest(events, active[..k], key)
    {
      var id := active[k - 1];
      assert id in active;
      assert active[..k][..k - 1] == active[..k - 1];
      if events[id].key == key {
        return Some(id);
      }
      k := k - 1;
    }
    return None;
  }

  method ParseLog(log: seq<Entry>) returns (t: Trace)
    ensures t == Run(log) && Inv(log, t)
  {
    hide Run, Inv, Without, Latest, WithChild;
    NothingRead();
    var events: seq<Event>, active: seq<nat>, phases: seq<PhaseMarker> := [], [], [];
    var open: map<Key, seq<nat>> := map[];
    for n := 0 to |log|
      invariant Trace(events, open, active, phases) == Run(log[..n])
    {
      ghost var before := Run(log[..n]);
      RunHolds(log[..n]);
      Unpack(log[..n], before);
      RunStep(log, n);
      match log[n] {
        case Begin(key) =>
          var id := |events|;
          events := AddChild(events, active, id);
          events := events + [Event(key, n, None, [])];
          open := open[key := Stack(open, key) + [id]];
          active := active + [id];
        case End(key, rc, ts) =>
          var stack := Stack(open, key);
          if stack != [] {
            TopIsLatest(before, key);
            var id := stack[|stack| - 1];
            open := open[key := stack[..|stack| - 1]];
            events := events[id := events[id].(end := Some(Ending(n, rc, ts)))];
            active := RemoveFirst(active, id);
          }
        case Phase(key) =>
          var parent := FindParent(events, active, key);
          phases := phases + [PhaseMarker(n, key, parent)];
        case Other =>
      }
    }
    assert log[..|log|] == log;
    t := Trace(events, open, active, phases);
    RunHolds(log);
  }

  lemma NothingRead()
    ensures Run([]) == NOTHING
  {}

  lemma RunStep(log: seq<Entry>, n: nat)
    requires n < |log|
    ensures Run(log[..n + 1]) == Step(Run(log[..n]), n, log[n])
  {
    hide Step;
    assert log[..n + 1][..n] == log[..n];
  }

  lemma Unpack(log: seq<Entry>, t: Trace)
    requires Inv(log, t)
    ensures ActiveAreOpen(t.events, t.active) && StacksAreActive(t.events, t.active, t.open)
  {}
}
