/** The chunk scheduler of the LTP watchdog: cases are run in chunks, and after each chunk the sweep
    resumes behind the case that timed out or behind the last case seen. */
module Watchdog {
  import opened Options

  /** The comma-joined list handed to the runner. */
  function Joined(chunk: seq<string>): (s: string) {
    if chunk == [] then ""
    else if |chunk| == 1 then chunk[0]
    else Joined(chunk[..|chunk| - 1]) + "," + chunk[|chunk| - 1]
  }

  function JoinedLength(chunk: seq<string>): (n: nat) { |Joined(chunk)| }

  /** The longest run of cases from a start within both limits, one case at least. */
  ghost predicate Greedy(cases: seq<string>, start: nat, size: nat, maxCases: int, maxChars: int) {
    && start + size <= |cases| && size >= 1
    && (size == 1 || (size <= maxCases && JoinedLength(cases[start..start + size]) <= maxChars))
    && (start + size == |cases| || size >= maxCases || JoinedLength(cases[start..start + size + 1]) > maxChars)
  }

  method MakeChunk(cases: seq<string>, start: nat, maxCases: int, maxChars: int) returns (chunk: seq<string>)
    requires start < |cases|
    ensures start + |chunk| <= |cases| && chunk == cases[start..start + |chunk|]
    ensures Greedy(cases, start, |chunk|, maxCases, maxChars)
  {
    hide JoinedLength;
    NothingJoined();
    chunk := [];
    var chars := 0;
    var i := start;
    while i < |cases|
      invariant start <= i <= |cases| && chunk == cases[start..i] && chars == JoinedLength(chunk)
      invariant |chunk| >= 2 ==> |chunk| <= maxCases && chars <= maxChars
    {
      var case_ := cases[i];
      var next := chars + |case_| + if chunk != [] then 1 else 0;
      assert cases[start..i + 1] == chunk + [case_];
      JoinedSnoc(chunk, case_);
      if chunk != [] && (|chunk| >= maxCases || next > maxChars) {
        break;
      }
      chunk := chunk + [case_];
      chars := next;
      i := i + 1;
    }
  }

  lemma NothingJoined()
    ensures JoinedLength([]) == 0
  {}

  lemma JoinedSnoc(chunk: seq<string>, x: string)
    ensures JoinedLength(chunk + [x]) == JoinedLength(chunk) + |x| + if chunk != [] then 1 else 0
  {
    assert (chunk + [x])[..|chunk|] == chunk;
  }

  /** Cases of one chunk: which were seen, in order and from its start, and whether each was run or skipped;
      `stalled` when the watchdog killed the chunk during the last one run. */
  datatype Record = Record(start: nat, size: nat, runs: seq<bool>, stalled: bool)

  /** Index of the last case run, or -1. */
  function LastRun(runs: seq<bool>): (k: int)
    ensures -1 <= k < |runs|
    ensures k >= 0 ==> runs[k]
    ensures forall i :: k < i < |runs| ==> !runs[i]
  {
    if runs == [] then -1
    else if runs[|runs| - 1] then |runs| - 1
    else LastRun(runs[..|runs| - 1])
  }

  /** Where the sweep goes on after a chunk. */
  function Resume(r: Record): (n: nat) {
    if r.stalled && LastRun(r.runs) >= 0 then r.start + LastRun(r.runs) + 1
    else if r.runs == [] || |r.runs| >= r.size then r.start + r.size
    else r.start + |r.runs|
  }

  ghost predicate GoodRecord(cases: seq<string>, r: Record, maxCases: int, maxChars: int) {
    r.start < |cases| && Greedy(cases, r.start, r.size, maxCases, maxChars) && |r.runs| <= r.size
  }

  /** A history of chunks, each beginning where the one before it says to resume. */
  ghost predicate Linked(cases: seq<string>, rs: seq<Record>, from: nat, to: nat, maxCases: int, maxChars: int) {
    if rs == [] then from == to
    else
      var last := rs[|rs| - 1];
      && GoodRecord(cases, last, maxCases, maxChars) && to == Resume(last)
      && Linked(cases, rs[..|rs| - 1], from, last.start, maxCases, maxChars)
  }

  predicate Distinct(cases: seq<string>) { forall i, j :: 0 <= i < j < |cases| ==> cases[i] != cases[j] }

  // What the history guarantees

  lemma ResumeForward(cases: seq<string>, r: Record, maxCases: int, maxChars: int)
    requires GoodRecord(cases, r, maxCases, maxChars)
    ensures r.start < Resume(r) <= r.start + r.size <= |cases|
    ensures r.runs != [] ==> Resume(r) <= r.start + |r.runs|
    ensures forall a :: 0 <= a < |r.runs| && r.runs[a] ==> r.start + a < Resume(r)
  {}

  lemma {:induction false} LinkedAt(cases: seq<string>, rs: seq<Record>, from: nat, to: nat, maxCases: int, maxChars: int, i: nat)
    requires Linked(cases, rs, from, to, maxCases, maxChars) && i < |rs|
    ensures GoodRecord(cases, rs[i], maxCases, maxChars) && from <= rs[i].start && Resume(rs[i]) <= to
    ensures i + 1 < |rs| ==> Resume(rs[i]) <= rs[|rs| - 1].start
    decreases |rs|
  {
    hide GoodRecord, Resume;
    var rest := rs[..|rs| - 1];
    var last := rs[|rs| - 1];
    ResumeForward(cases, last, maxCases, maxChars);
    if i < |rest| {
      LinkedAt(cases, rest, from, last.start, maxCases, maxChars, i);
    } else {
      FromBefore(cases, rest, from, last.start, maxCases, maxChars);
    }
  }

  /** The sweep takes at most one chunk per case it passes. */
  lemma {:induction false} FromBefore(cases: seq<string>, rs: seq<Record>, from: nat, to: nat, maxCases: int, maxChars: int)
    requires Linked(cases, rs, from, to, maxCases, maxChars)
    ensures from + |rs| <= to
    decreases |rs|
  {
    hide GoodRecord, Resume;
    if rs != [] {
      var last := rs[|rs| - 1];
      ResumeForward(cases, last, maxCases, maxChars);
      FromBefore(cases, rs[..|rs| - 1], from, last.start, maxCases, maxChars);
    }
  }

  /** Chunks further on start behind every case run earlier. */
  lemma {:induction false} Ordered(cases: seq<string>, rs: seq<Record>, from: nat, to: nat, maxCases: int, maxChars: int, i: nat, j: nat)
    requires Linked(cases, rs, from, to, maxCases, maxChars) && i < j < |rs|
    ensures Resume(rs[i]) <= rs[j].start
    decreases |rs|
  {
    hide GoodRecord, Resume;
    if j == |rs| - 1 {
      LinkedAt(cases, rs, from, to, maxCases, maxChars, i);
    } else {
      var rest := rs[..|rs| - 1];
      Ordered(cases, rest, from, rs[|rs| - 1].start, maxCases, maxChars, i, j);
    }
  }

  /** No case is run twice. */
  lemma RunOnce(cases: seq<string>, rs: seq<Record>, from: nat, to: nat, maxCases: int, maxChars: int, i: nat, a: nat, j: nat, b: nat)
    requires Distinct(cases) && Linked(cases, rs, from, to, maxCases, maxChars) && i <= j < |rs|
    requires a < |rs[i].runs| && rs[i].runs[a] && b < |rs[j].runs| && rs[j].runs[b]
    ensures rs[i].start + a < |cases| && rs[j].start + b < |cases|
    ensures cases[rs[i].start + a] == cases[rs[j].start + b] <==> i == j && a == b
  {
    hide Linked, Resume, GoodRecord;
    LinkedAt(cases, rs, from, to, maxCases, maxChars, i);
    LinkedAt(cases, rs, from, to, maxCases, maxChars, j);
    ResumeForward(cases, rs[i], maxCases, maxChars);
    ResumeForward(cases, rs[j], maxCases, maxChars);
    assert rs[j].start + b < Resume(rs[j]);
    if i < j {
      Ordered(cases, rs, from, to, maxCases, maxChars, i, j);
    }
  }

  /** A case is accounted for by a chunk that saw it, or that saw nothing at all. */
  predicate Accounts(r: Record, p: nat) {
    r.start <= p < r.start + r.size && (r.runs == [] || p < r.start + |r.runs|)
  }

  /** Every case the sweep has passed is accounted for. */
  lemma {:induction false} Covered(cases: seq<string>, rs: seq<Record>, from: nat, to: nat, maxCases: int, maxChars: int, p: nat)
    requires Linked(cases, rs, from, to, maxCases, maxChars) && from <= p < to
    ensures exists i :: 0 <= i < |rs| && Accounts(rs[i], p)
    decreases |rs|
  {
    hide GoodRecord, Resume;
    var rest := rs[..|rs| - 1];
    var last := rs[|rs| - 1];
    ResumeForward(cases, last, maxCases, maxChars);
    if p < last.start {
      Covered(cases, rest, from, last.start, maxCases, maxChars, p);
      var i :| 0 <= i < |rest| && Accounts(rest[i], p);
      assert Accounts(rs[i], p);
    } else {
      assert Accounts(rs[|rs| - 1], p);
    }
  }

  // The sweep

  /** First index of a case at or after `from`, as a list search. */
  method IndexOf(cases: seq<string>, x: string, from: nat) returns (k: Option<nat>)
    requires from <= |cases|
    ensures k.Some? ==> from <= k.value < |cases| && cases[k.value] == x && x !in cases[from..k.value] && x in cases[from..]
    ensures k.None? ==> x !in cases[from..]
  {
    for i := from to |cases|
      invariant x !in cases[from..i]
    {
      if cases[i] == x {
        assert cases[from..][i - from] == x;
        return Some(i);
      }
      assert cases[from..i + 1] == cases[from..i] + [cases[i]];
    }
    assert cases[from..|cases|] == cases[from..];
    return None;
  }

  /** The sweep stands right behind the first `x` at or after `index`. */
  ghost predicate Behind(cases: seq<string>, index: nat, x: string, next: int) {
    index < next <= |cases| && cases[next - 1] == x && x !in cases[index..next - 1]
  }

  /** With distinct cases there is only one place behind a case. */
  lemma OnlyPlace(cases: seq<string>, index: nat, p: nat, next: int)
    requires Distinct(cases) && index <= p < |cases|
    ensures cases[p] in cases[index..]
    ensures Behind(cases, index, cases[p], next) ==> next == p + 1
  {
    assert cases[index..][p - index] == cases[p];
  }

  /** Index of the last case seen that is a known one, or -1. */
  function LastKnown(seen: seq<string>, cases: seq<string>): (k: int)
    ensures -1 <= k < |seen|
    ensures k >= 0 ==> seen[k] in cases
    ensures forall i :: k < i < |seen| ==> seen[i] !in cases
  {
    if seen == [] then -1
    else if seen[|seen| - 1] in cases then |seen| - 1
    else LastKnown(seen[..|seen| - 1], cases)
  }

  /** The cases seen that are known. */
  method KnownSeen(seen: seq<string>, cases: seq<string>) returns (known: seq<string>)
    ensures known == [] <==> LastKnown(seen, cases) < 0
    ensures known != [] ==> known[|known| - 1] == seen[LastKnown(seen, cases)]
  {
    known := [];
    for i := 0 to |seen|
      invariant known == [] <==> LastKnown(seen[..i], cases) < 0
      invariant known != [] ==> known[|known| - 1] == seen[LastKnown(seen[..i], cases)]
    {
      assert seen[..i + 1][..i] == seen[..i];
      if seen[i] in cases {
        known := known + [seen[i]];
      }
    }
    assert seen[..|seen|] == seen;
  }

  /** One turn of the loop after its chunk has run, whatever the chunk reported: the index to go on from, or
      None for the search that fails uncaught when the last known case seen lies before the chunk. */
  method Advance(cases: seq<string>, index: nat, chunk: seq<string>, chunkSize: int, seen: seq<string>, timedOut: Option<string>)
    returns (next: Option<int>)
    requires chunk != [] && index + |chunk| <= |cases|
    ensures timedOut.Some? ==>
              if timedOut.value in cases[index..] then next.Some? && Behind(cases, index, timedOut.value, next.value)
              else next == Some(index + chunkSize)
    ensures timedOut.None? && (chunk[|chunk| - 1] in seen || LastKnown(seen, cases) < 0) ==> next == Some(index + |chunk|)
    ensures timedOut.None? && chunk[|chunk| - 1] !in seen && LastKnown(seen, cases) >= 0 ==>
              var last := seen[LastKnown(seen, cases)];
              if last in cases[index..] then next.Some? && Behind(cases, index, last, next.value) else next.None?
  {
    hide LastKnown;
    if timedOut.Some? {
      var at := IndexOf(cases, timedOut.value, index);
      return Some(if at.Some? then at.value + 1 else index + chunkSize);
    }
    if chunk[|chunk| - 1] !in seen {
      var known := KnownSeen(seen, cases);
      if known != [] {
        var at := IndexOf(cases, known[|known| - 1], index);
        return if at.Some? then Some(at.value + 1) else None;
      }
    }
    return Some(index + |chunk|);
  }

  /** What was seen of a chunk when it is its first `n` cases. */
  lemma PrefixSeen(cases: seq<string>, index: nat, chunk: seq<string>, n: nat)
    requires Distinct(cases) && chunk != [] && index + |chunk| <= |cases| && chunk == cases[index..index + |chunk|] && n <= |chunk|
    ensures chunk[|chunk| - 1] in chunk[..n] <==> n == |chunk|
    ensures LastKnown(chunk[..n], cases) == n - 1
  {
    var last := |chunk| - 1;
    assert forall i :: 0 <= i < |chunk| ==> chunk[i] == cases[index + i];
    if n == |chunk| {
      assert chunk[..n][last] == chunk[last];
    }
    if n > 0 {
      assert chunk[..n][n - 1] == cases[index + n - 1];
    }
  }

  /** Makes and runs one chunk: what it reported, where to resume, and the case that timed out. */
  method OneChunk(cases: seq<string>, index: nat, chunkSize: int, maxChars: int, said: seq<bool>, stalled: bool)
    returns (r: Record, next: nat, timedOut: Option<string>)
    requires Distinct(cases) && index < |cases|
    ensures r.start == index && GoodRecord(cases, r, chunkSize, maxChars) && next == Resume(r)
    ensures timedOut == GaveUp(cases, r)
  {
    hide Greedy, LastRun, LastKnown, Behind, Distinct;
    var chunk := MakeChunk(cases, index, chunkSize, maxChars);
    SizePositive(cases, index, |chunk|, chunkSize, maxChars);
    var marks := if |said| <= |chunk| then said else said[..|chunk|];
    r := Record(index, |chunk|, marks, stalled);
    var k := LastRun(marks);
    timedOut := if stalled && k >= 0 then Some(chunk[k]) else None;
    PrefixSeen(cases, index, chunk, |marks|);
    var after := Advance(cases, index, chunk, chunkSize, chunk[..|marks|], timedOut);
    ghost var p := index + if timedOut.Some? then k else |marks| - 1;
    if timedOut.Some? || 0 < |marks| < |chunk| {
      OnlyPlace(cases, index, p, if after.Some? then after.value else 0);
    }
    next := after.value;
  }

  /** The case the watchdog gave up on in a chunk. */
  function GaveUp(cases: seq<string>, r: Record): (name: Option<string>) {
    var k := LastRun(r.runs);
    if r.stalled && k >= 0 && r.start + k < |cases| then Some(cases[r.start + k]) else None
  }

  /** It is the last case run of a chunk that stalled, if any was run. */
  lemma GaveUpIs(cases: seq<string>, r: Record)
    requires r.start + |r.runs| <= |cases|
    ensures GaveUp(cases, r).Some? <==> r.stalled && true in r.runs
    ensures forall k :: 0 <= k < |r.runs| && r.stalled && r.runs[k] && true !in r.runs[k + 1..] ==> GaveUp(cases, r) == Some(cases[r.start + k])
  {
    hide LastRun;
    var last := LastRun(r.runs);
    assert last >= 0 ==> r.runs[last] == true;
    forall k | 0 <= k < |r.runs| && r.runs[k] && true !in r.runs[k + 1..] ensures k == last {
      LaterRun(r.runs, k);
    }
  }

  lemma LaterRun(runs: seq<bool>, k: nat)
    requires k < |runs|
    ensures true in runs[k + 1..] <==> exists i :: k < i < |runs| && runs[i]
  {
    var rest := runs[k + 1..];
    forall i | k < i < |runs| ensures runs[i] == rest[i - k - 1] {}
    forall j | 0 <= j < |rest| ensures rest[j] == runs[j + k + 1] {}
  }

  /** The whole sweep, against any runner that reports an in-order prefix of each chunk. */
  method Sweep(cases: seq<string>, from: nat, chunkSize: int, maxChars: int, maxChunks: nat, runs: nat -> seq<bool>, stalls: nat -> bool)
    returns (index: nat, records: seq<Record>, hardSkips: seq<string>)
    requires Distinct(cases) && from <= |cases|
    ensures Linked(cases, records, from, index, chunkSize, maxChars) && index <= |cases|
    ensures index < |cases| ==> maxChunks > 0 && |records| >= maxChunks
    ensures hardSkips == AllGivenUp(cases, records)
  {
    hide Linked, GoodRecord, LastRun, Resume, GaveUp, AllGivenUp;
    index, records, hardSkips := from, [], [];
    NoHistory(cases, from, chunkSize, maxChars);
    while index < |cases|
      invariant index <= |cases| && Linked(cases, records, from, index, chunkSize, maxChars)
      invariant hardSkips == AllGivenUp(cases, records)
      decreases |cases| - index
    {
      if maxChunks > 0 && |records| >= maxChunks {
        break;
      }
      var r, next, timedOut := OneChunk(cases, index, chunkSize, maxChars, runs(|records|), stalls(|records|));
      if timedOut.Some? {
        hardSkips := hardSkips + [timedOut.value];
      }
      ResumeForward(cases, r, chunkSize, maxChars);
      OneMore(cases, records, r, from, chunkSize, maxChars);
      index := next;
      records := records + [r];
    }
  }

  function AllGivenUp(cases: seq<string>, rs: seq<Record>): (names: seq<string>) {
    if rs == [] then []
    else
      var name := GaveUp(cases, rs[|rs| - 1]);
      var before := AllGivenUp(cases, rs[..|rs| - 1]);
      if name.Some? then before + [name.value] else before
  }

  lemma NoHistory(cases: seq<string>, from: nat, maxCases: int, maxChars: int)
    ensures Linked(cases, [], from, from, maxCases, maxChars) && AllGivenUp(cases, []) == []
  {}

  lemma SizePositive(cases: seq<string>, start: nat, size: nat, maxCases: int, maxChars: int)
    requires Greedy(cases, start, size, maxCases, maxChars)
    ensures size >= 1 && start + size <= |cases|
  {}

  lemma OneMore(cases: seq<string>, rs: seq<Record>, r: Record, from: nat, maxCases: int, maxChars: int)
    requires Linked(cases, rs, from, r.start, maxCases, maxChars) && GoodRecord(cases, r, maxCases, maxChars)
    ensures Linked(cases, rs + [r], from, Resume(r), maxCases, maxChars)
    ensures var name := GaveUp(cases, r);
            AllGivenUp(cases, rs + [r]) == if name.Some? then AllGivenUp(cases, rs) + [name.value] else AllGivenUp(cases, rs)
  {
    hide Greedy, Resume, GaveUp;
    assert (rs + [r])[..|rs|] == rs;
  }
}
