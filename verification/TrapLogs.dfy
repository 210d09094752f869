/** What the trap-log parser guarantees over every log. */
module TrapLogs {
  import opened Options
  import opened TrapText
  import opened TrapParser

  /** A line that starts a record when the parser stands on it. */
  predicate Starts(line: string) { IsSummary(line) && !IsPanic(line) }

  ghost predicate NoPanicIn(all: seq<string>, from: nat, to: nat) {
    forall q :: from <= q < to && q < |all| ==> !IsPanic(all[q])
  }

  ghost predicate NoStartIn(all: seq<string>, from: nat, to: nat) {
    forall q :: from <= q < to && q < |all| ==> !Starts(all[q])
  }

  /** What is pending after reading the lines from `lo` up to `k`: the last panic line among them. */
  ghost predicate PendingOk(all: seq<string>, lo: nat, k: nat, pending: Pending) {
    match pending
    case None => NoPanicIn(all, lo, k)
    case Some((text, p)) => lo <= p < k && p < |all| && IsPanic(all[p]) && text == all[p] && NoPanicIn(all, p + 1, k)
  }

  /** A record read by a parser that had taken everything before line `lo`: its summary is the first
      line from there on that starts one, and its panic text is the last panic line between, when
      that is at most thirty lines away. */
  ghost predicate RecordOk(all: seq<string>, lo: nat, t: Located) {
    && lo <= t.at < t.end <= |all|
    && Starts(all[t.at]) && NoStartIn(all, lo, t.at)
    && ValueAfterKey(all[t.at], "scause") == Some(t.trap.scause)
    && ValueAfterKey(all[t.at], "sepc") == Some(t.trap.sepc)
    && ValueAfterKey(all[t.at], "stval") == Some(t.trap.stval)
    && (match t.panicAt
        case None => t.trap.panic == None && NoPanicIn(all, if lo + 30 >= t.at then lo else t.at - 30, t.at)
        case Some(p) =>
          && lo <= p < t.at <= p + 30 && IsPanic(all[p])
          && t.trap.panic == Some(all[p]) && NoPanicIn(all, p + 1, t.at))
  }

  /** Every record follows on the end of the one before it, and the last leaves no start unread. */
  ghost predicate Accounted(all: seq<string>, lo: nat, r: seq<Located>)
    decreases |r|
  {
    if r == [] then NoStartIn(all, lo, |all|)
    else RecordOk(all, lo, r[0]) && Accounted(all, r[0].end, r[1..])
  }

  lemma {:induction false} ParseFromAccounted(all: seq<string>, lo: nat, k: nat, pending: Pending)
    requires lo <= k <= |all| && PendingOk(all, lo, k, pending) && NoStartIn(all, lo, k)
    requires pending.Some? ==> pending.value.1 <= k
    ensures Accounted(all, lo, ParseFrom(all[k..], k, pending))
    decreases |all| - k
  {
    hide IsPanic, IsSummary, ValueAfterKey, FrameBlock, ChainBlock, DumpBlock;
    if k < |all| {
      var line := all[k];
      assert all[k..][0] == line && all[k..][1..] == all[k + 1..];
      if IsPanic(line) {
        ParseFromAccounted(all, lo, k + 1, Some((line, k)));
      } else if !IsSummary(line) {
        ParseFromAccounted(all, lo, k + 1, pending);
      } else {
        var t := TrapAt(all[k..], k, pending);
        SummaryHasValues(line);
        assert RecordOk(all, lo, t);
        ParseFromAccounted(all, t.end, t.end, None);
        assert all[k..][t.end - k..] == all[t.end..];
        var r := ParseFrom(all[k..], k, pending);
        assert r == [t] + ParseFrom(all[t.end..], t.end, None);
        assert r[1..] == ParseFrom(all[t.end..], t.end, None);
      }
    }
  }

  /** The parser over any log: nothing is read twice, nothing that starts a record is skipped except
      inside another record's blocks, and panic texts are attached to the right trap. */
  lemma ParseAccounted(lines: seq<string>)
    ensures Accounted(lines, 0, Parse(lines))
  {
    ParseFromAccounted(lines, 0, 0, None);
    assert lines[0..] == lines;
  }

  lemma {:induction false} LaterStartsLater(all: seq<string>, lo: nat, r: seq<Located>, j: nat)
    requires Accounted(all, lo, r) && j < |r|
    ensures lo <= r[j].at < r[j].end && (r[j].panicAt.Some? ==> lo <= r[j].panicAt.value < r[j].at)
    decreases |r|
  {
    hide IsPanic, Starts, ValueAfterKey;
    if j > 0 {
      LaterStartsLater(all, r[0].end, r[1..], j - 1);
    }
  }

  /** Records take disjoint ranges of lines in order, so block lines never yield a second record, and
      a panic line is attached to at most one trap: a later trap's lies after an earlier trap's end. */
  lemma {:induction false} RecordsDisjoint(all: seq<string>, lo: nat, r: seq<Located>, i: nat, j: nat)
    requires Accounted(all, lo, r) && i < j < |r|
    ensures r[i].at < r[i].end <= r[j].at
    ensures r[i].panicAt.Some? && r[j].panicAt.Some? ==> r[i].panicAt.value < r[i].end <= r[j].panicAt.value
    decreases |r|
  {
    hide IsPanic, Starts, ValueAfterKey;
    if i == 0 {
      LaterStartsLater(all, r[0].end, r[1..], j - 1);
    } else {
      RecordsDisjoint(all, r[0].end, r[1..], i - 1, j - 1);
    }
  }
}
