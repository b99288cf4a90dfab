/** Reading back what the converter writes: entrypoints.txt, parsed by the
    consumer-side reader (ai_automation.py:96-121), yields one entry per
    stop, in order, holding exactly the keys of that stop's block
    (osm_to_pbsu.py:263-290). */
module EntrypointsRoundTrip {
  import opened Text
  import opened Runtime
  import opened Naming
  import opened OsmEntities
  import opened Projection
  import opened Emitters
  import opened Converter
  import opened Consistency
  import opened EntrypointsParser

  /** The entry one block of entrypoints.txt reads back as. */
  function EntryOf(stop: Stop, originLat: real, originLon: real, rt: Runtime): Entry {
    var p := LatLonToUnity(stop.lat, stop.lon, originLat, originLon, rt);
    map["name" := Slug(stop.name, rt),
        "posX" := rt.fixed6(p.x), "posY" := rt.fixed6(p.y), "posZ" := rt.fixed6(p.z),
        "rotX" := "0", "rotY" := "0", "rotZ" := "0"]
  }

  function Entries(stops: seq<Stop>, originLat: real, originLon: real, rt: Runtime): (es: seq<Entry>)
    ensures |es| == |stops|
    ensures forall k :: 0 <= k < |stops| ==> es[k] == EntryOf(stops[k], originLat, originLon, rt)
  {
    if |stops| == 0 then []
    else Entries(stops[..|stops| - 1], originLat, originLon, rt) + [EntryOf(stops[|stops| - 1], originLat, originLon, rt)]
  }

  /** How the reader classifies the nine lines of a block. */
  function BlockKinds(stop: Stop, originLat: real, originLon: real, rt: Runtime): seq<Line> {
    var p := LatLonToUnity(stop.lat, stop.lon, originLat, originLon, rt);
    [ HeaderLine,
      Pair("name", Slug(stop.name, rt)),
      Pair("posX", rt.fixed6(p.x)), Pair("posY", rt.fixed6(p.y)), Pair("posZ", rt.fixed6(p.z)),
      Pair("rotX", "0"), Pair("rotY", "0"), Pair("rotZ", "0"),
      Skipped ]
  }

  lemma HeaderLineOf(i: nat)
    ensures Classify("[entrypoint_" + NatToString(i) + "]") == HeaderLine
  {
    var rest := NatToString(i) + "]";
    assert "[entrypoint_" + NatToString(i) + "]" == Header + rest;
    HeaderWithRest(rest);
  }

  lemma BlankLine()
    ensures Classify("") == Skipped
  {
    StripUnchanged("");
  }

  lemma ValueLine(key: string, value: string)
    requires |key| == 4 && 'a' <= key[0] <= 'z' && '=' !in key
    requires NoSpace(value)
    ensures Classify(key + "=" + value) == Pair(key, value)
  {
    KeyValueLine(key, value);
  }

  /** The first five lines of a block, with its identifier and rendered
      coordinates as parameters; the last four are the same for every stop. */
  function BlockHead(i: nat, id: string, x: string, y: string, z: string): seq<string> {
    [ "[entrypoint_" + NatToString(i) + "]", "name" + "=" + id,
      "posX" + "=" + x, "posY" + "=" + y, "posZ" + "=" + z ]
  }

  const BlockTail: seq<string> := ["rotX" + "=" + "0", "rotY" + "=" + "0", "rotZ" + "=" + "0", ""]

  function HeadPairs(id: string, x: string, y: string, z: string): seq<Line> {
    [ HeaderLine, Pair("name", id), Pair("posX", x), Pair("posY", y), Pair("posZ", z) ]
  }

  const TailPairs: seq<Line> := [Pair("rotX", "0"), Pair("rotY", "0"), Pair("rotZ", "0"), Skipped]

  lemma BlockHeadClassified(i: nat, id: string, x: string, y: string, z: string)
    requires NoSpace(id) && NoSpace(x) && NoSpace(y) && NoSpace(z)
    ensures ClassifyAll(BlockHead(i, id, x, y, z)) == HeadPairs(id, x, y, z)
  {
    var b := BlockHead(i, id, x, y, z);
    HeaderLineOf(i);
    ValueLine("name", id);
    ValueLine("posX", x);
    ValueLine("posY", y);
    ValueLine("posZ", z);
    FiveBy(Classify, b, ClassifyAll(b));
  }

  /** A sequence of five values each given by f at the matching element. */
  lemma FiveBy<A, B>(f: A -> B, s: seq<A>, r: seq<B>)
    requires |s| == 5 && |r| == 5
    requires forall k :: 0 <= k < 5 ==> r[k] == f(s[k])
    ensures r == [f(s[0]), f(s[1]), f(s[2]), f(s[3]), f(s[4])]
  {
  }

  lemma FourBy<A, B>(f: A -> B, s: seq<A>, r: seq<B>)
    requires |s| == 4 && |r| == 4
    requires forall k :: 0 <= k < 4 ==> r[k] == f(s[k])
    ensures r == [f(s[0]), f(s[1]), f(s[2]), f(s[3])]
  {
  }

  lemma BlockTailClassified()
    ensures ClassifyAll(BlockTail) == TailPairs
  {
    assert NoSpace("0");
    ValueLine("rotX", "0");
    ValueLine("rotY", "0");
    ValueLine("rotZ", "0");
    BlankLine();
    FourBy(Classify, BlockTail, ClassifyAll(BlockTail));
  }

  lemma BlockIsHeadTail(i: nat, stop: Stop, originLat: real, originLon: real, rt: Runtime)
    ensures var p := LatLonToUnity(stop.lat, stop.lon, originLat, originLon, rt);
      EntrypointBlock(i, stop, originLat, originLon, rt)
        == BlockHead(i, Slug(stop.name, rt), rt.fixed6(p.x), rt.fixed6(p.y), rt.fixed6(p.z)) + BlockTail
  {
    var p := LatLonToUnity(stop.lat, stop.lon, originLat, originLon, rt);
    var b := EntrypointBlock(i, stop, originLat, originLon, rt);
    var t := BlockHead(i, Slug(stop.name, rt), rt.fixed6(p.x), rt.fixed6(p.y), rt.fixed6(p.z)) + BlockTail;
    assert b[1] == t[1] && b[2] == t[2] && b[3] == t[3] && b[4] == t[4];
    assert b[5] == t[5] && b[6] == t[6] && b[7] == t[7];
  }

  lemma HeadTailClassified(i: nat, id: string, x: string, y: string, z: string)
    requires NoSpace(id) && NoSpace(x) && NoSpace(y) && NoSpace(z)
    ensures ClassifyAll(BlockHead(i, id, x, y, z) + BlockTail) == HeadPairs(id, x, y, z) + TailPairs
  {
    BlockHeadClassified(i, id, x, y, z);
    BlockTailClassified();
    ClassifyAllAppend(BlockHead(i, id, x, y, z), BlockTail);
  }

  lemma BlockClassified(i: nat, stop: Stop, originLat: real, originLon: real, rt: Runtime)
    requires Plausible(rt)
    ensures ClassifyAll(EntrypointBlock(i, stop, originLat, originLon, rt)) == BlockKinds(stop, originLat, originLon, rt)
  {
    var p := LatLonToUnity(stop.lat, stop.lon, originLat, originLon, rt);
    var id := Slug(stop.name, rt);
    SlugNoNewline(stop.name, rt);
    BlockIsHeadTail(i, stop, originLat, originLon, rt);
    HeadTailClassified(i, id, rt.fixed6(p.x), rt.fixed6(p.y), rt.fixed6(p.z));
    assert BlockKinds(stop, originLat, originLon, rt) == HeadPairs(id, rt.fixed6(p.x), rt.fixed6(p.y), rt.fixed6(p.z)) + TailPairs;
  }

  lemma RunAt(st: ParseState, ls: seq<Line>, k: nat)
    requires k < |ls|
    ensures Run(st, ls[k..]) == Run(Apply(st, ls[k]), ls[k + 1..])
  {
    assert ls[k..][1..] == ls[k + 1..];
  }

  /** A block closes what was open and leaves its stop's entry open. */
  lemma RunBlock(st: ParseState, stop: Stop, originLat: real, originLon: real, rt: Runtime)
    ensures Run(st, BlockKinds(stop, originLat, originLon, rt))
         == ParseState(Close(st), EntryOf(stop, originLat, originLon, rt))
  {
    var ls := BlockKinds(stop, originLat, originLon, rt);
    var s0 := st;
    var s1 := Apply(s0, ls[0]);
    var s2 := Apply(s1, ls[1]);
    var s3 := Apply(s2, ls[2]);
    var s4 := Apply(s3, ls[3]);
    var s5 := Apply(s4, ls[4]);
    var s6 := Apply(s5, ls[5]);
    var s7 := Apply(s6, ls[6]);
    var s8 := Apply(s7, ls[7]);
    var s9 := Apply(s8, ls[8]);
    assert ls[0..] == ls;
    RunAt(s0, ls, 0);
    RunAt(s1, ls, 1);
    RunAt(s2, ls, 2);
    RunAt(s3, ls, 3);
    RunAt(s4, ls, 4);
    RunAt(s5, ls, 5);
    RunAt(s6, ls, 6);
    RunAt(s7, ls, 7);
    RunAt(s8, ls, 8);
    assert ls[9..] == [];
    assert s9 == ParseState(Close(st), EntryOf(stop, originLat, originLon, rt));
  }

  /** The kinds of the lines of the blocks of stops 1..n. */
  function StopsKinds(stops: seq<Stop>, originLat: real, originLon: real, rt: Runtime): seq<Line> {
    if |stops| == 0 then []
    else StopsKinds(stops[..|stops| - 1], originLat, originLon, rt) + BlockKinds(stops[|stops| - 1], originLat, originLon, rt)
  }

  /** The reader classifies the lines of entrypoints.txt block by block. */
  lemma {:induction false} StopsClassified(stops: seq<Stop>, originLat: real, originLon: real, rt: Runtime)
    requires Plausible(rt)
    ensures ClassifyAll(EntrypointsLines(stops, originLat, originLon, rt)) == StopsKinds(stops, originLat, originLon, rt)
  {
    if |stops| == 0 {
      assert EntrypointsLines(stops, originLat, originLon, rt) == [];
    } else {
      StopsClassified(stops[..|stops| - 1], originLat, originLon, rt);
      LastBlockClassified(stops, originLat, originLon, rt);
    }
  }

  /** After the blocks of stops 1..n the entries of the first n - 1 are
      closed and the last one is open. */
  lemma {:induction false} RunStops(stops: seq<Stop>, originLat: real, originLon: real, rt: Runtime)
    requires |stops| >= 1
    ensures Run(Initial, StopsKinds(stops, originLat, originLon, rt))
         == ParseState(Entries(stops[..|stops| - 1], originLat, originLon, rt),
                       EntryOf(stops[|stops| - 1], originLat, originLon, rt))
  {
    var n := |stops|;
    var prev := stops[..n - 1];
    var kinds := StopsKinds(prev, originLat, originLon, rt);
    RunAfterBlock(kinds, stops[n - 1], originLat, originLon, rt);
    if n == 1 {
      assert kinds == [];
    } else {
      RunStops(prev, originLat, originLon, rt);
      var st := Run(Initial, kinds);
      assert prev[..n - 2] == stops[..n - 2];
      EntryOfNonEmpty(prev[n - 2], originLat, originLon, rt);
      assert Close(st) == Entries(prev, originLat, originLon, rt);
    }
  }

  lemma RunAfterBlock(ls: seq<Line>, stop: Stop, originLat: real, originLon: real, rt: Runtime)
    ensures Run(Initial, ls + BlockKinds(stop, originLat, originLon, rt))
         == ParseState(Close(Run(Initial, ls)), EntryOf(stop, originLat, originLon, rt))
  {
    RunAppend(Initial, ls, BlockKinds(stop, originLat, originLon, rt));
    RunBlock(Run(Initial, ls), stop, originLat, originLon, rt);
  }

  lemma EntryOfNonEmpty(stop: Stop, originLat: real, originLon: real, rt: Runtime)
    ensures EntryOf(stop, originLat, originLon, rt) != map[]
  {
    assert "name" in EntryOf(stop, originLat, originLon, rt);
  }

  /** The lines of stops 1..n classify as those of stops 1..n - 1, then
      the kinds of the last block. */
  lemma LastBlockClassified(stops: seq<Stop>, originLat: real, originLon: real, rt: Runtime)
    requires |stops| >= 1 && Plausible(rt)
    ensures ClassifyAll(EntrypointsLines(stops, originLat, originLon, rt))
         == ClassifyAll(EntrypointsLines(stops[..|stops| - 1], originLat, originLon, rt))
            + BlockKinds(stops[|stops| - 1], originLat, originLon, rt)
  {
    var n := |stops|;
    var before := EntrypointsLines(stops[..n - 1], originLat, originLon, rt);
    var block := EntrypointBlock(n, stops[n - 1], originLat, originLon, rt);
    assert EntrypointsLines(stops, originLat, originLon, rt) == before + block;
    ClassifyAllAppend(before, block);
    BlockClassified(n, stops[n - 1], originLat, originLon, rt);
  }

  /** No stops give an empty file, which reads back as no entries. */
  lemma ParseNoStops(originLat: real, originLon: real, rt: Runtime)
    ensures ParseEntrypointsText(EntrypointsText([], originLat, originLon, rt)) == []
  {
    assert EntrypointsText([], originLat, originLon, rt) == "";
    assert Split("", '\n') == [""];
    BlankLine();
    assert ClassifyAll([""]) == [Skipped];
    RunCons(Initial, [Skipped]);
    assert [Skipped][1..] == [];
  }

  lemma {:induction false} ParseSomeStops(stops: seq<Stop>, originLat: real, originLon: real, rt: Runtime)
    requires |stops| >= 1 && Plausible(rt)
    ensures ParseEntrypointsText(EntrypointsText(stops, originLat, originLon, rt)) == Entries(stops, originLat, originLon, rt)
  {
    var n := |stops|;
    EntrypointsTextRoundTrip(stops, originLat, originLon, rt);
    StopsClassified(stops, originLat, originLon, rt);
    RunStops(stops, originLat, originLon, rt);
    var last := EntryOf(stops[n - 1], originLat, originLon, rt);
    assert "name" in last;
    assert Entries(stops, originLat, originLon, rt) == Entries(stops[..n - 1], originLat, originLon, rt) + [last];
  }

  /** Parsing entrypoints.txt gives back one entry per stop, in order: the
      stop's identifier as name, its three coordinates as written, and the
      three zero rotations. No stops give no entries. */
  lemma ParseGeneratedEntrypoints(stops: seq<Stop>, originLat: real, originLon: real, rt: Runtime)
    requires Plausible(rt)
    ensures ParseEntrypointsText(EntrypointsText(stops, originLat, originLon, rt)) == Entries(stops, originLat, originLon, rt)
  {
    if |stops| == 0 {
      ParseNoStops(originLat, originLon, rt);
    } else {
      ParseSomeStops(stops, originLat, originLon, rt);
    }
  }

  /** What the Blender side reads for stop k: its identifier, and the three
      zero rotations. */
  lemma ParsedNameAndRotation(stops: seq<Stop>, originLat: real, originLon: real, rt: Runtime, k: nat)
    requires Plausible(rt) && k < |stops|
    ensures var parsed := ParseEntrypointsText(EntrypointsText(stops, originLat, originLon, rt));
      && k < |parsed|
      && "name" in parsed[k] && parsed[k]["name"] == Slug(stops[k].name, rt)
      && "rotX" in parsed[k] && parsed[k]["rotX"] == "0"
      && "rotY" in parsed[k] && parsed[k]["rotY"] == "0"
      && "rotZ" in parsed[k] && parsed[k]["rotZ"] == "0"
  {
    ParseGeneratedEntrypoints(stops, originLat, originLon, rt);
  }

  /** convert's entrypoints.txt, read by the consumer, names the stops by
      the identifiers of entrypoints_list.txt, in the same order. */
  lemma ConvertedEntrypointsReadBack(stops: seq<Stop>, mapName: string, routeName: string, originLat: real, originLon: real, rt: Runtime)
    requires Plausible(rt)
    ensures var files := ConvertFiles(stops, mapName, routeName, originLat, originLon, rt);
      && EntrypointsPath(mapName, routeName) in files
      && ParseEntrypointsText(files[EntrypointsPath(mapName, routeName)]) == Entries(stops, originLat, originLon, rt)
  {
    ConvertFixedContents(stops, mapName, routeName, originLat, originLon, rt);
    ParseGeneratedEntrypoints(stops, originLat, originLon, rt);
  }
}
