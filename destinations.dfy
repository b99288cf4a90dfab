/** The destination names for the bus displays, read from entrypoints.txt
    (generate_destination_displays, ai_automation.py:1099-1127). Each line
    starting with "name=" (not stripped first) names the text after its
    first '=', stripped; empty names and names seen before are skipped.
    Without the file the defaults Terminal_A, Terminal_B and Centro are
    used. Displays are made for the first five names. */
module Destinations {
  import opened Text
  import opened Runtime
  import opened Naming
  import opened OsmEntities
  import opened Projection
  import opened Emitters
  import opened EntrypointsRoundTrip

  const DefaultDestinations: seq<string> := ["Terminal_A", "Terminal_B", "Centro"]

  const DisplayLimit: nat := 5

  /** line.split('=', 1)[1].strip() for a line starting with "name=". */
  function NameValue(line: string): Option<string> {
    if StartsWith(line, "name=") then Some(Strip(line[5..])) else None
  }

  /** `if name and name not in destinations: destinations.append(name)` */
  function AddName(ds: seq<string>, name: string): seq<string> {
    if name != "" && name !in ds then ds + [name] else ds
  }

  function AddLine(ds: seq<string>, line: string): seq<string> {
    match NameValue(line)
    case Some(name) => AddName(ds, name)
    case None => ds
  }

  /** The lines processed from first to last. */
  function Gather(ds: seq<string>, lines: seq<string>): seq<string>
    decreases |lines|
  {
    if |lines| == 0 then ds else Gather(AddLine(ds, lines[0]), lines[1..])
  }

  /** The destinations for a file's contents; None when it does not exist. */
  function ExtractDestinations(file: Option<string>): seq<string> {
    match file
    case None => DefaultDestinations
    case Some(content) => Gather([], Split(content, '\n'))
  }

  /** destinations[:5] */
  function Displayed(ds: seq<string>): (shown: seq<string>)
    ensures |shown| <= DisplayLimit
    ensures shown <= ds
    ensures |ds| <= DisplayLimit ==> shown == ds
    ensures |shown| == if |ds| <= DisplayLimit then |ds| else DisplayLimit
  {
    if |ds| <= DisplayLimit then ds else ds[..DisplayLimit]
  }

  /** generate_destination_displays: the names it makes a display for, in
      order (each goes to `<name>/0.png`). */
  method GenerateDestinationDisplays(file: Option<string>) returns (shown: seq<string>)
    ensures shown == Displayed(ExtractDestinations(file))
  {
    var destinations := DefaultDestinations;
    if file.Some? {
      var lines := Split(file.value, '\n');
      destinations := [];
      for i := 0 to |lines|
        invariant Gather(destinations, lines[i..]) == Gather([], lines)
      {
        assert lines[i..][1..] == lines[i + 1..];
        var line := lines[i];
        if StartsWith(line, "name=") {
          var name := Strip(line[5..]);
          if name != "" && name !in destinations {
            destinations := destinations + [name];
          }
        }
      }
      assert lines[|lines|..] == [];
    }
    shown := [];
    var n := if |destinations| <= DisplayLimit then |destinations| else DisplayLimit;
    for k := 0 to n
      invariant shown == destinations[..k]
    {
      shown := shown + [destinations[k]];
    }
    assert destinations[..n] == Displayed(destinations);
  }

  // ---------------------------------------------------------------
  // Properties

  predicate Distinct(ds: seq<string>) {
    forall i, j :: 0 <= i < j < |ds| ==> ds[i] != ds[j]
  }

  predicate NoneEmpty(ds: seq<string>) {
    forall i :: 0 <= i < |ds| ==> ds[i] != ""
  }

  lemma {:induction false} GatherAppend(ds: seq<string>, a: seq<string>, b: seq<string>)
    ensures Gather(ds, a + b) == Gather(Gather(ds, a), b)
    decreases |a|
  {
    if |a| > 0 {
      GatherAppend(AddLine(ds, a[0]), a[1..], b);
      assert (a + b)[0] == a[0];
      assert (a + b)[1..] == a[1..] + b;
    } else {
      assert a + b == b;
    }
  }

  /** No name is listed twice, and none is empty. */
  lemma {:induction false} GatherDistinct(ds: seq<string>, lines: seq<string>)
    requires Distinct(ds) && NoneEmpty(ds)
    ensures Distinct(Gather(ds, lines)) && NoneEmpty(Gather(ds, lines))
    decreases |lines|
  {
    if |lines| > 0 {
      GatherDistinct(AddLine(ds, lines[0]), lines[1..]);
    }
  }

  /** Names already listed keep their places: the list is in first-seen order. */
  lemma {:induction false} GatherExtends(ds: seq<string>, lines: seq<string>)
    ensures ds <= Gather(ds, lines)
    decreases |lines|
  {
    if |lines| > 0 {
      GatherExtends(AddLine(ds, lines[0]), lines[1..]);
    }
  }

  /** A name is listed exactly when it was already listed or some line
      names it and it is not empty. */
  lemma {:induction false} GatherMember(ds: seq<string>, lines: seq<string>, name: string)
    ensures name in Gather(ds, lines) <==>
      name in ds || (name != "" && exists j :: 0 <= j < |lines| && NameValue(lines[j]) == Some(name))
    decreases |lines|
  {
    if |lines| > 0 {
      GatherMember(AddLine(ds, lines[0]), lines[1..], name);
      if exists j :: 0 <= j < |lines| && NameValue(lines[j]) == Some(name) {
        var j :| 0 <= j < |lines| && NameValue(lines[j]) == Some(name);
        if j > 0 {
          assert lines[1..][j - 1] == lines[j];
        }
      }
      if exists j :: 0 <= j < |lines[1..]| && NameValue(lines[1..][j]) == Some(name) {
        var j :| 0 <= j < |lines[1..]| && NameValue(lines[1..][j]) == Some(name);
        assert lines[j + 1] == lines[1..][j];
      }
    }
  }

  /** Whatever the file says, the names are distinct and non-empty, and at
      most five get a display; without the file the defaults are used, and
      all three get one. */
  lemma DestinationsWellFormed(file: Option<string>)
    ensures Distinct(ExtractDestinations(file)) && NoneEmpty(ExtractDestinations(file))
    ensures |Displayed(ExtractDestinations(file))| <= DisplayLimit
    ensures file.None? ==> ExtractDestinations(file) == DefaultDestinations
    ensures file.None? ==> Displayed(ExtractDestinations(file)) == ["Terminal_A", "Terminal_B", "Centro"]
  {
    if file.Some? {
      GatherDistinct([], Split(file.value, '\n'));
    }
  }

  /** A name is a destination of an existing file exactly when some line
      starting with "name=" gives it. */
  lemma DestinationMember(content: string, name: string)
    ensures name in ExtractDestinations(Some(content)) <==>
      name != "" && exists j :: 0 <= j < |Split(content, '\n')| && NameValue(Split(content, '\n')[j]) == Some(name)
  {
    assert ExtractDestinations(Some(content)) == Gather([], Split(content, '\n'));
    GatherMember([], Split(content, '\n'), name);
  }

  // ---------------------------------------------------------------
  // The destinations of the converter's entrypoints.txt

  /** The stops' identifiers, empty and repeated ones skipped. */
  function DistinctIds(stops: seq<Stop>, rt: Runtime): seq<string> {
    if |stops| == 0 then []
    else AddName(DistinctIds(stops[..|stops| - 1], rt), Slug(stops[|stops| - 1].name, rt))
  }

  lemma NotNamed(line: string)
    requires |line| > 0 && line[0] != 'n'
    ensures NameValue(line) == None
  {
  }

  lemma NamedLine(id: string)
    requires NoSpace(id)
    ensures NameValue("name" + "=" + id) == Some(id)
  {
    var line := "name" + "=" + id;
    assert line[..5] == "name=";
    assert line[5..] == id;
    StripUnchanged(id);
  }

  lemma GatherAt(ds: seq<string>, ls: seq<string>, k: nat)
    requires k < |ls|
    ensures Gather(ds, ls[k..]) == Gather(AddLine(ds, ls[k]), ls[k + 1..])
  {
    assert ls[k..][1..] == ls[k + 1..];
  }

  lemma FiveLines(ds: seq<string>, l0: string, l1: string, l2: string, l3: string, l4: string, id: string)
    requires NameValue(l0) == None && NameValue(l1) == Some(id)
    requires NameValue(l2) == None && NameValue(l3) == None && NameValue(l4) == None
    ensures Gather(ds, [l0, l1, l2, l3, l4]) == AddName(ds, id)
  {
    var ls := [l0, l1, l2, l3, l4];
    var d1 := AddName(ds, id);
    assert ls[0..] == ls;
    GatherAt(ds, ls, 0);
    GatherAt(ds, ls, 1);
    GatherAt(d1, ls, 2);
    GatherAt(d1, ls, 3);
    GatherAt(d1, ls, 4);
    assert ls[5..] == [];
  }

  lemma HeadLineNames(i: nat, id: string, x: string, y: string, z: string)
    requires NoSpace(id)
    ensures var ls := BlockHead(i, id, x, y, z);
      && NameValue(ls[0]) == None && NameValue(ls[1]) == Some(id)
      && NameValue(ls[2]) == None && NameValue(ls[3]) == None && NameValue(ls[4]) == None
  {
    var ls := BlockHead(i, id, x, y, z);
    NotNamed(ls[0]);
    NamedLine(id);
    NotNamed(ls[2]);
    NotNamed(ls[3]);
    NotNamed(ls[4]);
  }

  lemma HeadNames(ds: seq<string>, i: nat, id: string, x: string, y: string, z: string)
    requires NoSpace(id)
    ensures Gather(ds, BlockHead(i, id, x, y, z)) == AddName(ds, id)
  {
    var ls := BlockHead(i, id, x, y, z);
    HeadLineNames(i, id, x, y, z);
    FiveLines(ds, ls[0], ls[1], ls[2], ls[3], ls[4], id);
    assert ls == [ls[0], ls[1], ls[2], ls[3], ls[4]];
  }

  lemma TailNames(ds: seq<string>)
    ensures Gather(ds, BlockTail) == ds
  {
    var ls := BlockTail;
    NotNamed(ls[0]);
    NotNamed(ls[1]);
    NotNamed(ls[2]);
    assert NameValue(ls[3]) == None;
    assert ls[0..] == ls;
    GatherAt(ds, ls, 0);
    GatherAt(ds, ls, 1);
    GatherAt(ds, ls, 2);
    GatherAt(ds, ls, 3);
    assert ls[4..] == [];
  }

  /** Only the name line of a block lists a destination. */
  lemma BlockNames(ds: seq<string>, i: nat, id: string, x: string, y: string, z: string)
    requires NoSpace(id)
    ensures Gather(ds, BlockHead(i, id, x, y, z) + BlockTail) == AddName(ds, id)
  {
    HeadNames(ds, i, id, x, y, z);
    TailNames(AddName(ds, id));
    GatherAppend(ds, BlockHead(i, id, x, y, z), BlockTail);
  }

  lemma {:induction false} LinesDestinations(stops: seq<Stop>, originLat: real, originLon: real, rt: Runtime)
    requires Plausible(rt)
    ensures Gather([], EntrypointsLines(stops, originLat, originLon, rt)) == DistinctIds(stops, rt)
    decreases |stops|
  {
    if |stops| > 0 {
      var n := |stops| - 1;
      var stop := stops[n];
      var prev := EntrypointsLines(stops[..n], originLat, originLon, rt);
      var block := EntrypointBlock(|stops|, stop, originLat, originLon, rt);
      assert EntrypointsLines(stops, originLat, originLon, rt) == prev + block;
      LinesDestinations(stops[..n], originLat, originLon, rt);
      GatherAppend([], prev, block);
      var p := LatLonToUnity(stop.lat, stop.lon, originLat, originLon, rt);
      BlockIsHeadTail(|stops|, stop, originLat, originLon, rt);
      SlugNoNewline(stop.name, rt);
      BlockNames(DistinctIds(stops[..n], rt), |stops|, Slug(stop.name, rt), rt.fixed6(p.x), rt.fixed6(p.y), rt.fixed6(p.z));
    }
  }

  /** End to end: for the converter's entrypoints.txt the destinations are
      the stops' identifiers in order, each once, empty ones left out. */
  lemma GeneratedDestinations(stops: seq<Stop>, originLat: real, originLon: real, rt: Runtime)
    requires Plausible(rt)
    ensures ExtractDestinations(Some(EntrypointsText(stops, originLat, originLon, rt))) == DistinctIds(stops, rt)
  {
    if |stops| == 0 {
      assert EntrypointsText(stops, originLat, originLon, rt) == "";
      assert Split("", '\n') == [""];
      assert Gather([], [""]) == Gather([], []);
    } else {
      EntrypointsTextRoundTrip(stops, originLat, originLon, rt);
      LinesDestinations(stops, originLat, originLon, rt);
    }
  }
}
