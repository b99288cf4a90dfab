/** The text files the converter writes, as lists of lines joined by '\n'
    (osm_to_pbsu.py:253-325). Each file's lines are recoverable by splitting
    its text at '\n', which is how every consumer reads them back. */
module Emitters {
  import opened Text
  import opened Runtime
  import opened Naming
  import opened OsmEntities
  import opened Projection

  /** The lines of entrypoints_list.txt: one identifier per stop. */
  function EntrypointsListLines(stops: seq<Stop>, rt: Runtime): (lines: seq<string>)
    ensures |lines| == |stops|
    ensures forall k :: 0 <= k < |stops| ==> lines[k] == Slug(stops[k].name, rt)
  {
    if |stops| == 0 then []
    else EntrypointsListLines(stops[..|stops| - 1], rt) + [Slug(stops[|stops| - 1].name, rt)]
  }

  /** generate_entrypoints_list: the identifiers joined by '\n', no trailing newline. */
  function EntrypointsList(stops: seq<Stop>, rt: Runtime): string {
    Join(EntrypointsListLines(stops, rt), '\n')
  }

  /** The nine lines of stop number i (1-based) in entrypoints.txt. */
  function EntrypointBlock(i: nat, stop: Stop, originLat: real, originLon: real, rt: Runtime): seq<string> {
    BlockLines(i, Slug(stop.name, rt), LatLonToUnity(stop.lat, stop.lon, originLat, originLon, rt), rt)
  }

  /** The block of stop number i with identifier id at the projected point p. */
  function BlockLines(i: nat, id: string, p: Vec3, rt: Runtime): seq<string> {
    [ "[entrypoint_" + NatToString(i) + "]",
      "name=" + id,
      "posX=" + rt.fixed6(p.x),
      "posY=" + rt.fixed6(p.y),
      "posZ=" + rt.fixed6(p.z),
      "rotX=0",
      "rotY=0",
      "rotZ=0",
      "" ]
  }

  /** The lines of entrypoints.txt: the blocks of stops 1, 2, ... in order. */
  function EntrypointsLines(stops: seq<Stop>, originLat: real, originLon: real, rt: Runtime): (lines: seq<string>)
    ensures |lines| == 9 * |stops|
  {
    if |stops| == 0 then []
    else
      EntrypointsLines(stops[..|stops| - 1], originLat, originLon, rt)
        + EntrypointBlock(|stops|, stops[|stops| - 1], originLat, originLon, rt)
  }

  /** The lines of the first i + 1 stops are those of the first i, then the
      block of stop i + 1. */
  lemma EntrypointsLinesSnoc(stops: seq<Stop>, originLat: real, originLon: real, rt: Runtime, i: nat)
    requires i < |stops|
    ensures EntrypointsLines(stops[..i + 1], originLat, originLon, rt)
         == EntrypointsLines(stops[..i], originLat, originLon, rt)
            + BlockLines(i + 1, Slug(stops[i].name, rt), LatLonToUnity(stops[i].lat, stops[i].lon, originLat, originLon, rt), rt)
  {
    assert stops[..i + 1][..i] == stops[..i];
  }

  /** Line j of stop k's block is line 9k + j of the file. */
  lemma {:induction false} EntrypointsLinesAt(stops: seq<Stop>, originLat: real, originLon: real, rt: Runtime, k: nat, j: nat)
    requires k < |stops| && j < 9
    ensures EntrypointsLines(stops, originLat, originLon, rt)[9 * k + j]
         == EntrypointBlock(k + 1, stops[k], originLat, originLon, rt)[j]
  {
    var n := |stops| - 1;
    var prev := EntrypointsLines(stops[..n], originLat, originLon, rt);
    var block := EntrypointBlock(|stops|, stops[n], originLat, originLon, rt);
    var lines := EntrypointsLines(stops, originLat, originLon, rt);
    assert lines == prev + block;
    if k < n {
      EntrypointsLinesAt(stops[..n], originLat, originLon, rt, k, j);
      assert stops[..n][k] == stops[k];
      assert 9 * k + j < |prev|;
      assert lines[9 * k + j] == prev[9 * k + j];
    } else {
      assert 9 * k + j == |prev| + j;
      assert lines[9 * k + j] == block[j];
    }
  }

  /** generate_entrypoints_txt */
  function EntrypointsText(stops: seq<Stop>, originLat: real, originLon: real, rt: Runtime): string {
    Join(EntrypointsLines(stops, originLat, originLon, rt), '\n')
  }

  /** The lines of a bus-stop file: the raw display name, the identifier as prefix. */
  function BusstopLines(stop: Stop, rt: Runtime): seq<string> {
    [ "[busstop]",
      "name=" + stop.name,
      "side=right",
      "radius=1",
      "paxAmount=5",
      "",
      "[from_3d]",
      "readFrom3D=1",
      "prefix=" + Slug(stop.name, rt),
      "rotY=0",
      "" ]
  }

  /** generate_busstop_txt */
  function BusstopText(stop: Stop, rt: Runtime): string {
    Join(BusstopLines(stop, rt), '\n')
  }

  function MapLines(mapName: string, routeName: string): seq<string> {
    [ "[map]",
      "baseDir=" + mapName,
      "modelsDir=" + routeName,
      "textures=textures",
      "mapModVersion=2",
      "preview=preview.png",
      "" ]
  }

  /** generate_map_txt */
  function MapText(mapName: string, routeName: string): string {
    Join(MapLines(mapName, routeName), '\n')
  }

  // ---------------------------------------------------------------
  // Reading the files back line by line

  lemma NoNewline(s: string)
    requires NoSpace(s)
    ensures '\n' !in s
  {
    assert IsSpace('\n');
  }

  lemma SlugNoNewline(name: string, rt: Runtime)
    requires Plausible(rt)
    ensures NoSpace(Slug(name, rt)) && '\n' !in Slug(name, rt)
  {
    NoNewline(Slug(name, rt));
  }

  lemma DigitsNoNewline(i: nat)
    ensures '\n' !in NatToString(i)
  {
  }

  lemma ConcatNoNewline(a: string, b: string)
    requires '\n' !in a && '\n' !in b
    ensures '\n' !in a + b
  {
  }

  /** entrypoints_list.txt splits back into exactly one identifier per stop. */
  lemma EntrypointsListRoundTrip(stops: seq<Stop>, rt: Runtime)
    requires |stops| >= 1 && Plausible(rt)
    ensures Split(EntrypointsList(stops, rt), '\n') == EntrypointsListLines(stops, rt)
    ensures |Split(EntrypointsList(stops, rt), '\n')| == |stops|
  {
    var lines := EntrypointsListLines(stops, rt);
    forall k | 0 <= k < |lines|
      ensures '\n' !in lines[k]
    {
      SlugNoNewline(stops[k].name, rt);
    }
    SplitJoin(lines, '\n');
  }

  lemma BlockNoNewline(i: nat, stop: Stop, originLat: real, originLon: real, rt: Runtime)
    requires Plausible(rt)
    ensures forall k :: 0 <= k < 9 ==> '\n' !in EntrypointBlock(i, stop, originLat, originLon, rt)[k]
  {
    var b := EntrypointBlock(i, stop, originLat, originLon, rt);
    var p := LatLonToUnity(stop.lat, stop.lon, originLat, originLon, rt);
    DigitsNoNewline(i);
    ConcatNoNewline("[entrypoint_", NatToString(i));
    ConcatNoNewline("[entrypoint_" + NatToString(i), "]");
    SlugNoNewline(stop.name, rt);
    ConcatNoNewline("name=", Slug(stop.name, rt));
    NoNewline(rt.fixed6(p.x));
    NoNewline(rt.fixed6(p.y));
    NoNewline(rt.fixed6(p.z));
    ConcatNoNewline("posX=", rt.fixed6(p.x));
    ConcatNoNewline("posY=", rt.fixed6(p.y));
    ConcatNoNewline("posZ=", rt.fixed6(p.z));
  }

  lemma {:induction false} EntrypointsLinesNoNewline(stops: seq<Stop>, originLat: real, originLon: real, rt: Runtime)
    requires Plausible(rt)
    ensures forall k :: 0 <= k < |EntrypointsLines(stops, originLat, originLon, rt)| ==>
      '\n' !in EntrypointsLines(stops, originLat, originLon, rt)[k]
  {
    if |stops| > 0 {
      var prev := EntrypointsLines(stops[..|stops| - 1], originLat, originLon, rt);
      var block := EntrypointBlock(|stops|, stops[|stops| - 1], originLat, originLon, rt);
      EntrypointsLinesNoNewline(stops[..|stops| - 1], originLat, originLon, rt);
      BlockNoNewline(|stops|, stops[|stops| - 1], originLat, originLon, rt);
      assert EntrypointsLines(stops, originLat, originLon, rt) == prev + block;
    }
  }

  /** entrypoints.txt splits back into its 9 lines per stop. */
  lemma EntrypointsTextRoundTrip(stops: seq<Stop>, originLat: real, originLon: real, rt: Runtime)
    requires |stops| >= 1 && Plausible(rt)
    ensures Split(EntrypointsText(stops, originLat, originLon, rt), '\n') == EntrypointsLines(stops, originLat, originLon, rt)
  {
    EntrypointsLinesNoNewline(stops, originLat, originLon, rt);
    SplitJoin(EntrypointsLines(stops, originLat, originLon, rt), '\n');
  }

  /** A bus-stop file splits back into its 11 lines whenever the display
      name has no line break. */
  lemma BusstopTextRoundTrip(stop: Stop, rt: Runtime)
    requires Plausible(rt) && '\n' !in stop.name
    ensures Split(BusstopText(stop, rt), '\n') == BusstopLines(stop, rt)
    ensures Split(BusstopText(stop, rt), '\n')[1] == "name=" + stop.name
    ensures Split(BusstopText(stop, rt), '\n')[8] == "prefix=" + Slug(stop.name, rt)
  {
    var lines := BusstopLines(stop, rt);
    ConcatNoNewline("name=", stop.name);
    SlugNoNewline(stop.name, rt);
    ConcatNoNewline("prefix=", Slug(stop.name, rt));
    forall k | 0 <= k < |lines|
      ensures '\n' !in lines[k]
    {
    }
    SplitJoin(lines, '\n');
  }

  /** Whatever the display name holds, a bus-stop file reads back as its
      header, the name line split at any newline in it, then the nine fixed
      lines ending in the prefix, rotY and an empty line. */
  lemma BusstopTextLines(stop: Stop, rt: Runtime)
    requires Plausible(rt)
    ensures var lines := Split(BusstopText(stop, rt), '\n');
      && |lines| >= 11
      && lines[0] == "[busstop]"
      && lines[|lines| - 9..] == BusstopLines(stop, rt)[2..]
      && lines[|lines| - 3] == "prefix=" + Slug(stop.name, rt)
  {
    var all := BusstopLines(stop, rt);
    BusstopTailNoNewline(stop, rt);
    assert all == [all[0], all[1]] + all[2..];
    SplitAfterTwo(all[0], all[1], all[2..]);
  }

  lemma BusstopTailNoNewline(stop: Stop, rt: Runtime)
    requires Plausible(rt)
    ensures forall k :: 2 <= k < |BusstopLines(stop, rt)| ==> '\n' !in BusstopLines(stop, rt)[k]
  {
    SlugNoNewline(stop.name, rt);
    ConcatNoNewline("prefix=", Slug(stop.name, rt));
  }

  /** Joined lines split back with only the second one cut at its own
      separators. */
  lemma SplitAfterTwo(a: string, b: string, tail: seq<string>)
    requires '\n' !in a && |tail| >= 1
    requires forall k :: 0 <= k < |tail| ==> '\n' !in tail[k]
    ensures Split(Join([a, b] + tail, '\n'), '\n') == [a] + Split(b, '\n') + tail
  {
    var rest := Join(tail, '\n');
    JoinAfterTwo(a, b, tail);
    SplitAfterPiece(a, '\n', b + ['\n'] + rest);
    SplitAtSep(b, '\n', rest);
    SplitJoin(tail, '\n');
  }

  lemma JoinAfterTwo(a: string, b: string, tail: seq<string>)
    requires |tail| >= 1
    ensures Join([a, b] + tail, '\n') == a + ['\n'] + (b + ['\n'] + Join(tail, '\n'))
  {
    JoinCons(b, tail);
    JoinCons(a, [b] + tail);
    assert [a, b] + tail == [a] + ([b] + tail);
  }

  lemma JoinCons(x: string, rest: seq<string>)
    requires |rest| >= 1
    ensures Join([x] + rest, '\n') == x + ['\n'] + Join(rest, '\n')
  {
    assert ([x] + rest)[1..] == rest;
  }

  lemma MapTextRoundTrip(mapName: string, routeName: string)
    requires '\n' !in mapName && '\n' !in routeName
    ensures Split(MapText(mapName, routeName), '\n') == MapLines(mapName, routeName)
  {
    var lines := MapLines(mapName, routeName);
    ConcatNoNewline("baseDir=", mapName);
    ConcatNoNewline("modelsDir=", routeName);
    forall k | 0 <= k < |lines|
      ensures '\n' !in lines[k]
    {
    }
    SplitJoin(lines, '\n');
  }

  /** The map file names the map and route directories and format version 2,
      whatever the names are. */
  lemma MapTextMentions(mapName: string, routeName: string)
    ensures Contains(MapText(mapName, routeName), "[map]")
    ensures Contains(MapText(mapName, routeName), "baseDir=" + mapName)
    ensures Contains(MapText(mapName, routeName), "modelsDir=" + routeName)
    ensures Contains(MapText(mapName, routeName), "mapModVersion=2")
  {
    var l := MapLines(mapName, routeName);
    JoinContainsLine(l, '\n', 0);
    JoinContainsLine(l, '\n', 1);
    JoinContainsLine(l, '\n', 2);
    JoinContainsLine(l, '\n', 4);
  }
}
