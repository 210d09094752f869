/** The route state file as the ordered map it stands for. */
module RouteMap {
  import opened Options
  import opened Splits
  import opened LineReader
  import FieldTools
  import opened RouteText

  datatype Route = Route(dest: string, gw: string, dev: string)

  /** A field the line format can carry. */
  predicate Plain(f: string) { Free(f, Space) && Free(f, Newline) }

  predicate CleanRoute(r: Route) { r.dest != "" && Plain(r.dest) && Plain(r.gw) && Plain(r.dev) }

  predicate Clean(rs: seq<Route>) { forall i :: 0 <= i < |rs| ==> CleanRoute(rs[i]) }

  predicate Distinct(rs: seq<Route>) { forall i, j :: 0 <= i < j < |rs| ==> rs[i].dest != rs[j].dest }

  function LineOf(r: Route): (l: string) { r.dest + " " + r.gw + " " + r.dev }

  function TextOf(rs: seq<Route>): (s: string) {
    if rs == [] then "" else Above(LineOf(rs[0]), TextOf(rs[1..]))
  }

  // Deleting and setting a key

  function Remove(rs: seq<Route>, dest: string): (r: seq<Route>) {
    if rs == [] then []
    else if rs[0].dest == dest then Remove(rs[1..], dest)
    else [rs[0]] + Remove(rs[1..], dest)
  }

  function Set(rs: seq<Route>, r: Route): (s: seq<Route>) { Remove(rs, r.dest) + [r] }

  function AsMap(rs: seq<Route>): (m: map<string, (string, string)>) {
    if rs == [] then map[] else AsMap(rs[1..])[rs[0].dest := (rs[0].gw, rs[0].dev)]
  }

  lemma {:induction false} RemoveKeeps(rs: seq<Route>, dest: string)
    ensures forall i :: 0 <= i < |Remove(rs, dest)| ==> Remove(rs, dest)[i].dest != dest
    ensures Clean(rs) ==> Clean(Remove(rs, dest))
  {
    hide CleanRoute;
    if rs != [] {
      RemoveKeeps(rs[1..], dest);
    }
  }

  lemma {:induction false} RemoveDistinct(rs: seq<Route>, dest: string, other: string)
    requires Distinct(rs)
    ensures Distinct(Remove(rs, dest))
    ensures (forall i :: 0 <= i < |rs| ==> rs[i].dest != other) ==> forall i :: 0 <= i < |Remove(rs, dest)| ==> Remove(rs, dest)[i].dest != other
  {
    if rs != [] {
      assert forall i :: 0 <= i < |rs[1..]| ==> rs[1..][i] == rs[i + 1];
      RemoveDistinct(rs[1..], dest, rs[0].dest);
      RemoveDistinct(rs[1..], dest, other);
    }
  }

  lemma SetKeeps(rs: seq<Route>, r: Route)
    requires Distinct(rs) && Clean(rs) && CleanRoute(r)
    ensures Distinct(Set(rs, r)) && Clean(Set(rs, r))
  {
    hide CleanRoute, Remove;
    RemoveKeeps(rs, r.dest);
    RemoveDistinct(rs, r.dest, r.dest);
  }

  lemma {:induction false} AsMapKeys(rs: seq<Route>, dest: string)
    ensures dest in AsMap(rs) <==> exists i :: 0 <= i < |rs| && rs[i].dest == dest
  {
    if rs != [] {
      AsMapKeys(rs[1..], dest);
      if i :| 0 <= i < |rs| && rs[i].dest == dest {
        assert i > 0 ==> rs[1..][i - 1].dest == dest;
      }
    }
  }

  lemma {:induction false} AsMapAppend(rs: seq<Route>, r: Route)
    requires forall i :: 0 <= i < |rs| ==> rs[i].dest != r.dest
    ensures AsMap(rs + [r]) == AsMap(rs)[r.dest := (r.gw, r.dev)]
  {
    if rs == [] {
      assert rs + [r] == [r];
    } else {
      AsMapAppend(rs[1..], r);
      assert (rs + [r])[1..] == rs[1..] + [r];
    }
  }

  lemma {:induction false} AsMapRemove(rs: seq<Route>, dest: string)
    requires Distinct(rs)
    ensures AsMap(Remove(rs, dest)) == AsMap(rs) - {dest}
  {
    if rs != [] {
      assert Distinct(rs[1..]);
      AsMapRemove(rs[1..], dest);
      AsMapKeys(rs[1..], rs[0].dest);
    }
  }

  /** Setting a key on the list is setting it in the map. */
  lemma AsMapSet(rs: seq<Route>, r: Route)
    requires Distinct(rs)
    ensures AsMap(Set(rs, r)) == AsMap(rs)[r.dest := (r.gw, r.dev)]
  {
    RemoveKeeps(rs, r.dest);
    AsMapRemove(rs, r.dest);
    AsMapAppend(Remove(rs, r.dest), r);
  }

  // The text of a clean list

  lemma PlainLine(r: Route)
    requires CleanRoute(r)
    ensures Free(LineOf(r), Newline) && LineOf(r) != "" && Key(LineOf(r)) == r.dest
  {
    hide FirstOf;
    var l := LineOf(r);
    assert l == r.dest + (" " + r.gw + " " + r.dev);
    FirstOfIs(r.dest, " " + r.gw + " " + r.dev, Space);
  }

  lemma AboveReads(line: string, after: string)
    requires Free(line, Newline)
    ensures First(Above(line, after)) == line && Rest(Above(line, after)) == after
  {
    hide FirstOf, Free;
    var s := Above(line, after);
    assert s == line + (['\n'] + after);
    FirstOfIs(line, ['\n'] + after, Newline);
    assert s[..|line|] == line && s[|line| + 1..] == after;
  }

  /** Deleting a destination from the text deletes it from the list. */
  lemma {:induction false} KeptIsRemove(rs: seq<Route>, dest: string)
    requires Clean(rs)
    ensures Kept(TextOf(rs), dest) == TextOf(Remove(rs, dest))
  {
    hide Kept, Above, LineOf, CleanRoute, First, Rest, Key, Free;
    if rs == [] {
      NoBytes(dest);
    } else {
      var line, after := LineOf(rs[0]), TextOf(rs[1..]);
      assert CleanRoute(rs[0]);
      PlainLine(rs[0]);
      AboveReads(line, after);
      KeptStep(TextOf(rs), dest);
      KeptIsRemove(rs[1..], dest);
      assert rs[0].dest != dest ==> ([rs[0]] + Remove(rs[1..], dest))[1..] == Remove(rs[1..], dest);
    }
  }

  lemma {:induction false} TextAppend(rs: seq<Route>, r: Route)
    ensures TextOf(rs + [r]) == TextOf(rs) + LineOf(r) + "\n"
  {
    hide Above, LineOf;
    if rs == [] {
      assert rs + [r] == [r] && [r][1..] == [];
      LastAbove(LineOf(r));
    } else {
      TextAppend(rs[1..], r);
      assert (rs + [r])[1..] == rs[1..] + [r];
      AboveTail(LineOf(rs[0]), TextOf(rs[1..]), LineOf(r));
    }
  }

  lemma LastAbove(line: string)
    ensures Above(line, "") == "" + line + "\n"
  {}

  lemma AboveTail(line: string, x: string, y: string)
    ensures Above(line, x + y + "\n") == Above(line, x) + y + "\n"
  {}

  // Runs of commands

  datatype Command =
    | Put(dest: string, gw: Option<string>, dev: Option<string>)
    | Delete(dest: string)
    | Flush

  function RouteOf(c: Command): (r: Route)
    requires c.Put?
  {
    Route(c.dest, OrUnderscore(c.gw), OrUnderscore(Device(c.gw, c.dev)))
  }

  /** Fields without spaces or newlines, fewer than 4094 bytes in all. */
  predicate CleanCommand(c: Command) {
    match c
    case Put(_, _, _) => CleanRoute(RouteOf(c)) && |RouteOf(c).dest| + |RouteOf(c).gw| + |RouteOf(c).dev| < 4094
    case Delete(dest) => dest != "" && Plain(dest)
    case Flush => true
  }

  function OnFile(content: string, c: Command): (s: string) {
    match c
    case Put(dest, gw, dev) => Changed(content, false, dest, gw, dev)
    case Delete(dest) => Changed(content, true, dest, None, None)
    case Flush => ""
  }

  /** The map operation, which a state of 16383 bytes or more refuses. */
  function OnMap(rs: seq<Route>, c: Command): (s: seq<Route>) {
    if c.Flush? then []
    else if |TextOf(rs)| >= OLD - 1 then rs
    else if c.Put? then Set(rs, RouteOf(c))
    else Remove(rs, c.dest)
  }

  function RunFile(content: string, cs: seq<Command>): (s: string)
    decreases |cs|
  {
    if cs == [] then content else RunFile(OnFile(content, cs[0]), cs[1..])
  }

  function RunMap(rs: seq<Route>, cs: seq<Command>): (s: seq<Route>)
    decreases |cs|
  {
    if cs == [] then rs else RunMap(OnMap(rs, cs[0]), cs[1..])
  }

  lemma OneCommand(rs: seq<Route>, c: Command)
    requires Clean(rs) && Distinct(rs) && CleanCommand(c)
    ensures OnFile(TextOf(rs), c) == TextOf(OnMap(rs, c))
    ensures Clean(OnMap(rs, c)) && Distinct(OnMap(rs, c))
  {
    hide Kept, CleanRoute, Distinct, TextOf, Remove, Device;
    match c
    case Flush => EmptyList();
    case Delete(dest) =>
      KeptIsRemove(rs, dest);
      RemoveKeeps(rs, dest);
      RemoveDistinct(rs, dest, dest);
    case Put(dest, gw, dev) =>
      var r := RouteOf(c);
      SetKeeps(rs, r);
      KeptIsRemove(rs, dest);
      KeptFits(TextOf(rs), dest);
      TextAppend(Remove(rs, dest), r);
      assert NewLine(dest, gw, dev) == LineOf(r);
  }

  lemma EmptyList()
    ensures TextOf([]) == "" && Distinct([]) && AsMap([]) == map[]
  {}

  /** After every run of clean commands from the empty file, the file is exactly the text of the ordered
      map the commands build, with one line per destination. */
  lemma {:induction false} RunsAgree(rs: seq<Route>, cs: seq<Command>)
    requires Clean(rs) && Distinct(rs) && forall i :: 0 <= i < |cs| ==> CleanCommand(cs[i])
    ensures RunFile(TextOf(rs), cs) == TextOf(RunMap(rs, cs))
    ensures Clean(RunMap(rs, cs)) && Distinct(RunMap(rs, cs))
    decreases |cs|
  {
    hide CleanCommand, OnFile, OnMap, TextOf, Distinct, Clean;
    if cs != [] {
      assert CleanCommand(cs[0]);
      OneCommand(rs, cs[0]);
      RunsAgree(OnMap(rs, cs[0]), cs[1..]);
    }
  }

  // The map the commands build

  /** A plain map from destination to gateway and device, and the bytes its lines take. */
  datatype Table = Table(routes: map<string, (string, string)>, size: int)

  function Bytes(dest: string, to: (string, string)): (n: nat) { |dest| + |to.0| + |to.1| + 3 }

  function Without(t: Table, dest: string): (u: Table) {
    Table(t.routes - {dest}, if dest in t.routes then t.size - Bytes(dest, t.routes[dest]) else t.size)
  }

  function With(t: Table, dest: string, to: (string, string)): (u: Table) {
    var u := Without(t, dest);
    Table(u.routes[dest := to], u.size + Bytes(dest, to))
  }

  /** Set, delete or clear; a table of 16383 bytes or more takes only the last. */
  function OnTable(t: Table, c: Command): (u: Table) {
    match c
    case Flush => Table(map[], 0)
    case Delete(dest) => if t.size >= OLD - 1 then t else Without(t, dest)
    case Put(dest, _, _) => if t.size >= OLD - 1 then t else With(t, dest, (RouteOf(c).gw, RouteOf(c).dev))
  }

  function RunTable(t: Table, cs: seq<Command>): (u: Table)
    decreases |cs|
  {
    if cs == [] then t else RunTable(OnTable(t, cs[0]), cs[1..])
  }

  function TableOf(rs: seq<Route>): (t: Table) { Table(AsMap(rs), |TextOf(rs)|) }

  lemma {:induction false} RemoveShrinks(rs: seq<Route>, dest: string)
    requires Distinct(rs)
    ensures TableOf(Remove(rs, dest)) == Without(TableOf(rs), dest)
  {
    AsMapRemove(rs, dest);
    if rs != [] {
      assert Distinct(rs[1..]);
      RemoveShrinks(rs[1..], dest);
      AsMapKeys(rs[1..], rs[0].dest);
    }
  }

  lemma SetGrows(rs: seq<Route>, r: Route)
    requires Distinct(rs)
    ensures TableOf(Set(rs, r)) == With(TableOf(rs), r.dest, (r.gw, r.dev))
  {
    hide Remove, TextOf, AsMap, Distinct;
    RemoveShrinks(rs, r.dest);
    RemoveKeeps(rs, r.dest);
    AsMapAppend(Remove(rs, r.dest), r);
    TextAppend(Remove(rs, r.dest), r);
  }

  /** The ordered list never says more than the map: after every run of clean commands the file lists the
      destinations of the map built by setting, deleting and clearing alone, and its length is the map's size. */
  lemma {:induction false} RunsBuildTheMap(rs: seq<Route>, cs: seq<Command>)
    requires Clean(rs) && Distinct(rs) && forall i :: 0 <= i < |cs| ==> CleanCommand(cs[i])
    ensures AsMap(RunMap(rs, cs)) == RunTable(TableOf(rs), cs).routes
    ensures |RunFile(TextOf(rs), cs)| == RunTable(TableOf(rs), cs).size
    decreases |cs|
  {
    hide CleanCommand, OnFile, TextOf, Distinct, Clean, AsMap, Remove, Set, Without, With, RouteOf;
    if cs != [] {
      var c := cs[0];
      assert CleanCommand(c);
      OneCommand(rs, c);
      match c {
        case Flush => EmptyList();
        case Delete(dest) => RemoveShrinks(rs, dest);
        case Put(_, _, _) =>
          SetGrows(rs, RouteOf(c));
          PutFields(c);
      }
      RunsBuildTheMap(OnMap(rs, c), cs[1..]);
    }
  }

  /** The route an add leaves: its own destination, gateway and device, an underscore for one not given, and the
      loopback device for a loopback gateway without a device. */
  lemma PutFields(c: Command)
    requires c.Put?
    ensures var r := RouteOf(c);
            && r.dest == c.dest
            && r.gw == (if c.gw.Some? then c.gw.value else "_")
            && (c.dev.Some? ==> r.dev == c.dev.value)
            && (c.dev.None? ==> r.dev == if c.gw.Some? && Loopback(c.gw.value) then "lo" else "_")
  {}

  predicate Loopback(gw: string) { (|gw| >= 4 && gw[..4] == "127.") || gw == "::1" }

  /** So after an add the map holds that route, and every other destination what it held before. */
  lemma PutIsInMap(rs: seq<Route>, c: Command)
    requires Distinct(rs) && c.Put? && |TextOf(rs)| < OLD - 1
    ensures var m := AsMap(OnMap(rs, c));
            && c.dest in m
            && m[c.dest].0 == (if c.gw.Some? then c.gw.value else "_")
            && m[c.dest].1 == (if c.dev.Some? then c.dev.value else if c.gw.Some? && Loopback(c.gw.value) then "lo" else "_")
            && m - {c.dest} == AsMap(rs) - {c.dest}
  {
    hide Set, AsMap, Distinct, TextOf, RouteOf, Loopback;
    PutFields(c);
    AsMapSet(rs, RouteOf(c));
  }

  // Listing

  /** A route as it is listed: fields cut to 127 bytes, an underscore not shown. */
  function RowFor(r: Route): (row: Row) { Row(Cut(r.dest, FIELD), Shown(Cut(r.gw, FIELD)), Shown(Cut(r.dev, FIELD))) }

  function Listing(rs: seq<Route>): (rows: seq<Row>) {
    if rs == [] then [] else [RowFor(rs[0])] + Listing(rs[1..])
  }

  /** What is listed of a route: up to 127 bytes of each field, and no gateway or device that is an underscore. */
  lemma RowIs(r: Route)
    requires '\0' !in r.gw && '\0' !in r.dev
    ensures var row := RowFor(r);
            && row.dest == (if |r.dest| <= 127 then r.dest else r.dest[..127])
            && row.via == (if r.gw == "" || r.gw == "_" then None else Some(if |r.gw| <= 127 then r.gw else r.gw[..127]))
            && row.dev == (if r.dev == "" || r.dev == "_" then None else Some(if |r.dev| <= 127 then r.dev else r.dev[..127]))
  {
    CutPlain(r.gw);
    CutPlain(r.dev);
  }

  lemma CutPlain(f: string)
    requires '\0' !in f
    ensures FieldTools.CStr(Cut(f, FIELD)) == Cut(f, FIELD)
  {
    NoNul(Cut(f, FIELD));
  }

  lemma {:induction false} NoNul(f: string)
    requires '\0' !in f
    ensures FieldTools.CStr(f) == f
  {
    assert f + "" == f;
    FirstOfIs(f, "", FieldTools.Nul);
  }

  lemma FieldsOfLine(r: Route)
    requires CleanRoute(r)
    ensures SplitBy(LineOf(r), Space) == [r.dest, r.gw, r.dev]
  {
    hide SplitBy, Free;
    assert LineOf(r) == r.dest + [' '] + (r.gw + [' '] + r.dev);
    SplitToken(r.dest, ' ', r.gw + [' '] + r.dev, Space);
    SplitToken(r.gw, ' ', r.dev, Space);
    SplitWhole(r.dev, Space);
  }

  /** Listing the text of a map lists its routes in order. */
  lemma {:induction false} ListsTheMap(rs: seq<Route>)
    requires Clean(rs)
    ensures Rows(StateLines(TextOf(rs))) == Listing(rs)
  {
    hide Above, LineOf, Plain, First, Rest, StateLines, SplitBy, Rows, Shown, Key;
    if rs == [] {
      NoRows();
    } else {
      var r, after := rs[0], TextOf(rs[1..]);
      assert CleanRoute(r);
      PlainLine(r);
      AboveReads(LineOf(r), after);
      RowsStep(TextOf(rs));
      FieldsOfLine(r);
      ListsTheMap(rs[1..]);
      assert FieldAt([r.dest, r.gw, r.dev], 0) == Cut(r.dest, FIELD) != "";
      assert RowOf([r.dest, r.gw, r.dev]) == RowFor(r);
    }
  }
}
