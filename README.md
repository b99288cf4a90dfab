# OSM to PBSU: a verified model of the converter and its consumers

This project models the core of OSM-to-PBSU, which turns an OpenStreetMap
JSON export into the text files of a Proton Bus Simulator (PBSU) map. It
also models the scripts that read those files back. Three parts are
covered.

- **The converter** (`osm_to_pbsu.py`):
  - two passes over the OSM elements: index the nodes and collect the bus
    stops, then classify the ways as roads and/or buildings;
  - the building-height fallback chain;
  - the identifier ("internal name") derived from a stop's display name;
  - the four text emitters;
  - `convert`, which stops early when there are no stops, defaults the
    origin to the first stop, and writes the files.

  Writing files is modelled as a map from relative path to contents. The
  class `Converter.OsmToPbsuConverter` keeps the three lists that
  `parse_osm_json` appends to.
- **The consumers in `ai_automation.py`**:
  - the section/key=value reader of `entrypoints.txt`;
  - the face-index construction of the road, sidewalk and building meshes;
  - trigger and spawn naming;
  - destination extraction (deduplicate, then keep at most 5);
  - the idempotent README note.
- **`automate_post_conversion.py`**:
  - the fallback PNG writer: signature, `png_pack` chunk framing, the IHDR
    layout, the raw scanlines, and the chunk order IHDR, IDAT, IEND;
  - the three helper scripts it writes for Blender. They embed copies of
    the entry-point reader and of the road-face construction.

Python primitives the code calls but the model cannot see are parameters:

- `float()`, `math.cos`, the `:.6f` format and `str.isalnum` are fields of
  `Runtime.Runtime`.
- `zlib.compress` and `zlib.crc32` are fields of `SimplePng.Zlib`.
- `Runtime.Plausible` states the few facts about them that the lemmas rely
  on. For example, `isalnum` rejects white space, `=`, `-` and `_`, and
  `float()` reads back every `:.6f` string and `"0"`.

Floats are modelled as Dafny reals.

Main end-to-end results:

- A stop's identifier is the same in `entrypoints_list.txt`, in
  `entrypoints.txt`, in its bus-stop file name and in that file's
  `prefix=` line (`Consistency.CrossFileConsistency`).
- Reading the converter's `entrypoints.txt` gives back one entry per stop,
  in order (`EntrypointsRoundTrip.ParseGeneratedEntrypoints`). The Blender
  scripts then place one object per stop
  (`StopPlacement.GeneratedFileMarkers`,
  `StopPlacement.GeneratedFileSceneStops`). The display names are the
  stops' distinct identifiers (`Destinations.GeneratedDestinations`).
- A PNG written by the fallback reads back as exactly its three chunks
  (`SimplePng.EncodeReadsBack`).

Where a general description of the system and the code disagree, the model
follows the code.

- The stop test is only `highway == "bus_stop"` or
  `public_transport == "platform"`.
- The road allow-list is exactly primary, secondary, tertiary, residential
  and trunk.
- A way can be both a road and a building.
- Every `m` and `M` is removed from a height value, not only a unit
  suffix.
- The height tiers are tried as `height`, then `building:height`, then
  `building:levels` (osm_to_pbsu.py:101-122). The docstring at
  osm_to_pbsu.py:94-98 lists `building:levels` before `building:height`.
- A height can be 0 or negative.
- Identifiers keep every character that Python's Unicode-aware `isalnum`
  accepts, not just ASCII letters and digits.

## Model

| member | source | states |
|---|---|---|
| OsmEntities.StopNamesFromIds | osm_to_pbsu.py:41-47 | a stop with a `name` tag is called by it; two stop nodes without one and with different ids never share their default name "Bus Stop <id>" |
| Extraction.StopsOf | osm_to_pbsu.py:34-47 | at most one stop per element; none from an empty list |
| Extraction.StopsOfMember | osm_to_pbsu.py:35-47 | a stop is extracted exactly when some node's tags pass the stop test (`highway == "bus_stop"` or `public_transport == "platform"`), as that node's record |
| Extraction.StopsOfAppend | osm_to_pbsu.py:34-47 | stops of a + b are the stops of a followed by those of b: input order is kept |
| Extraction.StopsOfNone | osm_to_pbsu.py:35-40 | elements that are not stop nodes yield no stop |
| Extraction.IndexNodesDomain | osm_to_pbsu.py:33-36 | an id is in the node index exactly when some node carries it |
| Extraction.IndexNodesLast | osm_to_pbsu.py:34-36 | the index holds the coordinates of the last node with a given id |
| Extraction.IndexNodesAppend | osm_to_pbsu.py:33-36 | elements that are not nodes, placed after the nodes, leave the index unchanged |
| Extraction.IndexNodesPrepend | osm_to_pbsu.py:33-36 | ways placed before the nodes do not change the index |
| Extraction.Resolve | osm_to_pbsu.py:56-63 | the resolved points are at most as many as the ids |
| Extraction.ResolveAppend | osm_to_pbsu.py:57-63 | resolution keeps the order of the ids |
| Extraction.ResolveAllKnown | osm_to_pbsu.py:57-63 | when every id is indexed there is one point per id, each the indexed point |
| Extraction.ResolveNoneKnown | osm_to_pbsu.py:57-64 | when no id is indexed nothing is resolved, so the way is dropped |
| Extraction.ResolveSound | osm_to_pbsu.py:57-63 | every resolved point is the indexed point of one of the way's ids |
| Extraction.RoadsOf | osm_to_pbsu.py:50-69 | at most one road per element |
| Extraction.BuildingsOf | osm_to_pbsu.py:50-89 | at most one building per element |
| Extraction.RoadsOfAppend | osm_to_pbsu.py:50-69 | roads keep input order |
| Extraction.BuildingsOfAppend | osm_to_pbsu.py:50-89 | buildings keep input order |
| Extraction.NoWaysNoRoads | osm_to_pbsu.py:51 | a list without ways yields no roads and no buildings |
| Extraction.RoadsOfMember | osm_to_pbsu.py:51-69 | a road is extracted exactly from a way whose highway tag is one of the five allowed types and which resolves to at least one point |
| Extraction.BuildingsOfMember | osm_to_pbsu.py:51-89 | a building is extracted exactly from a way with a non-empty `building` tag and at least one resolved point, with the height of the fallback chain |
| Extraction.WaysBeforeNodes | osm_to_pbsu.py:33-89 | listing all ways before all nodes extracts the same index, stops, roads and buildings as the reverse order |
| Extraction.AnyInterleaving | osm_to_pbsu.py:33-89 | any two element lists with the same nodes in the same order and the same ways in the same order give the same index, stops, roads and buildings, however nodes and ways are interleaved: the index is complete before any way is read |
| Extraction.RoadAndBuilding | osm_to_pbsu.py:55-89 | a residential way with a building tag is both a road and a building |
| Converter.ResolveWayNodes | osm_to_pbsu.py:57-63 | the loop resolves the ids as `Resolve` does |
| Converter.RoadFromWay | osm_to_pbsu.py:55-69 | the road test and resolution of one way, as the extraction function defines it |
| Converter.BuildingFromWay | osm_to_pbsu.py:72-89 | the building test, resolution and height of one way |
| Converter.OsmToPbsuConverter.constructor | osm_to_pbsu.py:21-26 | a new converter has empty stop, road and building lists |
| Converter.OsmToPbsuConverter.IndexPass | osm_to_pbsu.py:33-47 | the first pass returns the node index and appends the stops to the old list |
| Converter.OsmToPbsuConverter.WayPass | osm_to_pbsu.py:50-89 | the second pass appends the roads and buildings to the old lists |
| Converter.OsmToPbsuConverter.ParseOsmJson | osm_to_pbsu.py:28-89 | each list becomes the old one followed by what this call extracts, so a second call accumulates |
| BuildingHeight.RemoveUnits | osm_to_pbsu.py:104 | no `m` or `M` is left anywhere, the result is no longer than the input, and an input without them is returned unchanged |
| BuildingHeight.RemoveUnitsConcat | osm_to_pbsu.py:104 | removal works character by character: the result for `a + b` is the result for `a` followed by the result for `b`, so every other character is kept in order |
| BuildingHeight.RemoveUnitsChar | osm_to_pbsu.py:104 | a single `m` or `M` becomes empty, any other character stays |
| BuildingHeight.RemoveUnitsLength | osm_to_pbsu.py:104 | the result is shorter than the input by exactly the number of `m` and `M` characters |
| BuildingHeight.HeightPrecedence | osm_to_pbsu.py:101-123 | the height is the value of the first of `height`, `building:height`, `building:levels` × 3.5 that parses |
| BuildingHeight.HeightDefault | osm_to_pbsu.py:125-144 | when no tier parses, the building type decides through the table, defaulting to 10.0 |
| BuildingHeight.UnparseableFallsThrough | osm_to_pbsu.py:102-123 | a tag whose value does not parse acts as if it were absent |
| BuildingHeight.HeightWithUnit | osm_to_pbsu.py:102-105 | "15m" gives 15, and so does "1m5": inner letters are removed too |
| BuildingHeight.HeightFromLevels | osm_to_pbsu.py:118-121 | 4 levels give 14.0 |
| BuildingHeight.HeightFromBuildingHeight | osm_to_pbsu.py:110-113 | `building:height` is used when `height` is absent |
| BuildingHeight.ZeroLevelsGiveZero | osm_to_pbsu.py:118-121 | `building:levels = "0"` gives height 0, so heights need not be positive |
| BuildingHeight.HeightFromType | osm_to_pbsu.py:126-144 | a house gets 7.0, an unknown type 10.0 |
| Naming.Underscored | osm_to_pbsu.py:258 | the result has the input's length; each space and hyphen becomes `_`, every other character stays |
| Naming.KeepIdent | osm_to_pbsu.py:259 | the result is no longer than the input and holds only characters that are alphanumeric or `_` |
| Naming.KeepIdentConcat | osm_to_pbsu.py:259 | filtering a + b is filtering a, then b: the kept characters stay in order |
| Naming.Slug | osm_to_pbsu.py:258-259 | the identifier is no longer than the name and holds only kept characters; with a plausible `isalnum`, no space, hyphen, `=` or white space |
| Naming.SlugIdempotent | osm_to_pbsu.py:258-259 | when `isalnum` rejects space and hyphen, deriving the identifier of an identifier gives it back |
| Naming.TwoWords | osm_to_pbsu.py:258-259 | two words of kept characters joined by one space or hyphen become the words joined by `_` |
| Naming.HyphenOrSpace | osm_to_pbsu.py:258 | a hyphen and a space in the same place give the same identifier |
| Naming.SlugStopOne | osm_to_pbsu.py:258-259 | "Stop One" becomes "Stop_One" |
| Naming.SlugKeepsUnicodeLetters | osm_to_pbsu.py:259 | "Café #1" becomes "Café_1": a non-ASCII letter that `isalnum` accepts is kept |
| Naming.SlugCollides | osm_to_pbsu.py:258-259 | two different display names can give the same identifier |
| Projection.OriginMapsToZero | osm_to_pbsu.py:203-233 | the origin projects to (0, 0, 0), and y is always 0 |
| Projection.NorthIsPositiveZ | osm_to_pbsu.py:225-230 | z is positive north of the origin and negative south of it |
| Projection.EastIsPositiveX | osm_to_pbsu.py:226-229 | with a positive cosine, x is positive east of the origin |
| Projection.RadiansMonotone | osm_to_pbsu.py:219-222 | the degree-to-radian conversion preserves order |
| Emitters.EntrypointsListLines | osm_to_pbsu.py:253-261 | one line per stop, line i being stop i's identifier |
| Emitters.EntrypointsListRoundTrip | osm_to_pbsu.py:253-261 | for at least one stop, splitting the list file at newlines gives back exactly one identifier per stop, with no trailing empty line |
| Emitters.EntrypointsLines | osm_to_pbsu.py:263-290 | nine lines per stop |
| Emitters.EntrypointsLinesAt | osm_to_pbsu.py:267-288 | line 9k + j of the file is line j of the block of stop k + 1 |
| Emitters.EntrypointsTextRoundTrip | osm_to_pbsu.py:263-290 | splitting entrypoints.txt gives back its 9 lines per stop |
| Emitters.BusstopTextLines | osm_to_pbsu.py:292-312 | whatever the display name holds, a bus-stop file splits into at least 11 lines: the header first, then the name line cut at any newline in it, then the nine fixed lines, with the identifier as prefix third from the end |
| Emitters.BusstopTextRoundTrip | osm_to_pbsu.py:292-312 | a bus-stop file splits back into its 11 lines, including the raw name and the identifier as prefix, when the display name holds no newline |
| Emitters.MapTextRoundTrip | osm_to_pbsu.py:314-325 | the map file splits back into its 7 lines |
| Emitters.MapTextMentions | osm_to_pbsu.py:316-324 | the map file names the map and route directories and mapModVersion=2 |
| Converter.OsmToPbsuConverter.GenerateEntrypointsList | osm_to_pbsu.py:253-261 | the loop returns the list file's text |
| Converter.OsmToPbsuConverter.GenerateEntrypointsTxt | osm_to_pbsu.py:263-290 | the loop returns entrypoints.txt's text, blocks numbered from 1 |
| Converter.AppendBlock | osm_to_pbsu.py:280-288 | the nine appends add the header `[entrypoint_<i>]`, `name=`, the three formatted positions, the three zero rotations and an empty line, after the lines already there |
| Converter.ProjectFootprint | osm_to_pbsu.py:443-448 | one projected point per node, in order |
| Converter.Footprint | osm_to_pbsu.py:443-448 | one point per node, each the node's projection |
| Converter.ExportBuilding | osm_to_pbsu.py:436-456 | the exported footprint, height, type (`yes` if absent) and name (empty if absent) of one building |
| Converter.GeoBuildings | osm_to_pbsu.py:431-433 | at most one exported building per building |
| Converter.GeoBuildingsKeepAll | osm_to_pbsu.py:431-456 | when every building has a node, as the second pass ensures, building k is exported as entry k: footprint, height, type and name |
| Converter.GeoStops | osm_to_pbsu.py:466-478 | one exported stop per stop, under the identifier the text files use |
| Converter.OsmToPbsuConverter.ExportBuildings | osm_to_pbsu.py:431-456 | the export loop gives `GeoBuildings` of the building list |
| Converter.OsmToPbsuConverter.ExportStops | osm_to_pbsu.py:466-478 | the export loop gives `GeoStops` of the stop list |
| Converter.OsmToPbsuConverter.WriteFiles | osm_to_pbsu.py:380-408 | the files written are the map file, the list, the entry points and one file per stop, with the emitters' contents |
| Converter.OsmToPbsuConverter.Convert | osm_to_pbsu.py:343-478 | without stops nothing is written; otherwise the origin is the caller's or the first stop's, and the files and export follow |
| Consistency.PathsDistinct | osm_to_pbsu.py:327-406 | the map file, list, entry points and bus-stop file paths are pairwise different |
| Consistency.BusstopPathInjective | osm_to_pbsu.py:404-406 | different identifiers give different bus-stop file paths |
| Consistency.WriteBusstopsKeeps | osm_to_pbsu.py:402-408 | a path no stop writes to keeps its contents |
| Consistency.WriteBusstopsAt | osm_to_pbsu.py:402-408 | stop k's file exists and holds the text of the last stop with that identifier |
| Consistency.WriteBusstopsCount | osm_to_pbsu.py:402-408 | with distinct identifiers each stop adds one file |
| Consistency.ConvertFixedContents | osm_to_pbsu.py:380-399 | the map file, list and entry points keep the emitters' contents after the bus-stop writes |
| Consistency.ConvertFileCount | osm_to_pbsu.py:380-408 | three fixed files plus one per stop when identifiers are distinct |
| Consistency.DuplicateIdentifierOverwrites | osm_to_pbsu.py:402-408 | two stops with the same identifier share one file, holding the later stop's text |
| Consistency.ListConsistency | osm_to_pbsu.py:387-392 | stop k's line in the list file is its identifier |
| Consistency.EntrypointsFileLines | osm_to_pbsu.py:394-399 | entrypoints.txt read back is exactly the stops' blocks |
| Consistency.EntrypointsConsistency | osm_to_pbsu.py:280-281 | stop k's block starts with `[entrypoint_<k+1>]` and `name=<identifier>` |
| Consistency.BusstopConsistency | osm_to_pbsu.py:295-307 | for any stop names, stop k's identifier names a bus-stop file of at least 11 lines whose prefix line, third from the end, is that identifier; exactly 11 lines when the stops sharing the identifier have names without newlines |
| Consistency.CrossFileConsistency | osm_to_pbsu.py:253-478 | for any stop names, stop k's identifier is the same in the list, in entrypoints.txt, in the bus-stop file name, in that file's prefix line and in the export's internal name |
| Consistency.EntrypointsOnGround | osm_to_pbsu.py:231-283 | every block's posY line is the formatted 0.0 |
| Consistency.DefaultOriginAtFirstStop | osm_to_pbsu.py:367-370 | with the default origin the first stop's block places it at (0, 0, 0) |
| EntrypointsParser.Close | ai_automation.py:111-112 | the finished entries are kept in front unchanged; the open entry follows them exactly when it has a key; so closing never adds an empty entry |
| EntrypointsParser.ClassifyMeaning | ai_automation.py:109-116 | a stripped line that starts with `[entrypoint_` is a header; otherwise a line containing `=` is a pair whose key has no `=`; other lines are skipped |
| EntrypointsParser.ParseEntrypoints | ai_automation.py:96-121 | the loop reads the entries the line fold defines, none of them empty; a missing file gives none |
| EntrypointsParser.RunAppend | ai_automation.py:108-116 | processing a + b is processing a, then b |
| EntrypointsParser.ClassifyAllAppend | ai_automation.py:108-109 | classifying lines a + b is classifying a, then b |
| EntrypointsParser.RunKeepsNonEmpty | ai_automation.py:111-112 | no step stores an empty entry |
| EntrypointsParser.ParsedEntriesNonEmpty | ai_automation.py:111-119 | every entry read has at least one key |
| EntrypointsParser.KeyValueLine | ai_automation.py:109-116 | `key=value`, with a key free of `=` that starts with neither white space nor `[` and a value that does not end in white space, reads as that pair: the split is at the first `=`, so the value may hold `=` |
| EntrypointsParser.HeaderWithRest | ai_automation.py:109-113 | `[entrypoint_` followed by text that does not end in white space reads as a header |
| EntrypointsParser.RepeatedKeyOverwrites | ai_automation.py:116 | a repeated key keeps the later value |
| EntrypointsParser.SkippedLinesChangeNothing | ai_automation.py:109-116 | lines that are neither headers nor pairs do not change the state |
| EntrypointsParser.HeaderAfterHeader | ai_automation.py:110-113 | a header with nothing open pushes no entry |
| EntrypointsRoundTrip.Entries | osm_to_pbsu.py:263-290 | one expected entry per stop |
| EntrypointsRoundTrip.RunBlock | ai_automation.py:108-116 | one block closes the entry that was open and leaves its own stop's entry open |
| EntrypointsRoundTrip.StopsClassified | ai_automation.py:108-116 | with plausible primitives, each generated line is classified as its block expects: header, the eight pairs, then a skipped blank line |
| EntrypointsRoundTrip.RunStops | ai_automation.py:105-116 | after the classified blocks of n ≥ 1 stops the entries of the first n − 1 are closed and the last one is open |
| EntrypointsRoundTrip.ParseNoStops | ai_automation.py:105-121 | an empty entrypoints.txt reads back as no entries |
| EntrypointsRoundTrip.ParseGeneratedEntrypoints | ai_automation.py:96-121 | parsing generated entrypoints.txt yields exactly one entry per stop, in order, with the name, positions and rotations written |
| EntrypointsRoundTrip.ParsedNameAndRotation | ai_automation.py:114-116 | entry k has `name` = stop k's identifier and `rotX` = `rotY` = `rotZ` = "0" |
| EntrypointsRoundTrip.ConvertedEntrypointsReadBack | osm_to_pbsu.py:394-399 | the converter's entrypoints.txt, read by the consumer, gives the stops' entries |
| Mesh.StripMesh | ai_automation.py:129-164 | two vertices per point, and for each i ≥ 1 the quad (2i−2, 2i−1, 2i+1, 2i): n − 1 faces, every index below 2n |
| Mesh.StripFaceJoinsNeighbours | ai_automation.py:160-164 | face k uses both vertices of point k and of point k + 1 and no others |
| Mesh.StripFacesShareEdge | ai_automation.py:160-164 | consecutive faces share an edge |
| Mesh.CreateRoadMesh | ai_automation.py:127-183 | None for fewer than 2 points, otherwise the strip mesh of the points |
| Mesh.CreateSidewalk | ai_automation.py:185-245 | nothing for fewer than 2 points, otherwise a left and a right strip named `<name>_Left` and `<name>_Right` |
| Mesh.CreateRoadBetweenPoints | automate_post_conversion.py:348-412 | nothing for fewer than 2 points, otherwise the strip mesh with quads (base, base+1, base+3, base+2) for base = 2(i−1) |
| Mesh.Range | ai_automation.py:325-329 | element k of list(range(a, b)) is a + k |
| Mesh.Reversed | ai_automation.py:329-330 | the list reversed |
| Mesh.BuildingFaces | ai_automation.py:324-337 | bottom is [0..n−1], top is [n..2n−1] reversed, and side i is [i, (i+1)%n, (i+1)%n+n, i+n], in that order |
| Mesh.UnityToBlenderInvolution | ai_automation.py:123-125 | swapping y and z twice gives the point back |
| Mesh.CreateBuildingFromFootprint | ai_automation.py:291-356 | None for fewer than 3 points; otherwise 2n vertices (the footprint, then the same raised by the height) and the n + 2 faces above |
| Mesh.BuildingWellFormed | ai_automation.py:300-337 | every face index lies in [0, 2n) |
| Mesh.SideFaceCorners | ai_automation.py:333-337 | side i lists bottom i, bottom next, top next, top i |
| Mesh.SidesShareEdge | ai_automation.py:333-337 | adjacent walls share their vertical edge round the whole ring |
| Mesh.TopMirrorsBottom | ai_automation.py:325-331 | the top lists the top vertices in the reverse order of the bottom |
| BusStopObjects.CreateBusstopTrigger | ai_automation.py:247-255 | the trigger is named `<stop>_trigger` and sits 1 above the stop, and no spawn of any stop carries its name |
| BusStopObjects.CreatePassengerSpawns | ai_automation.py:257-272 | `count` spawns (none for count ≤ 0), spawn i named `<stop>.<i, 3 digits>` at the stop offset by (i − count // 2) × spacing along x and 1.5 along y |
| BusStopObjects.CreateBusstopObjects | automate_post_conversion.py:250-278 | the trigger at the stop and the five helper spawns |
| BusStopObjects.HelperSpawns | automate_post_conversion.py:269-276 | exactly five spawns |
| BusStopObjects.HelperSpawnRange | automate_post_conversion.py:269-276 | the spawns run from `<stop>.000` to `<stop>.004`, the middle one at the stop |
| BusStopObjects.SpawnNamesDistinct | ai_automation.py:262-270 | no two spawns of a stop share a name |
| BusStopObjects.TriggerIsNotASpawn | ai_automation.py:247-270 | no trigger's name is a spawn's name, of the same stop or of any other: one ends in `r`, the other in a digit |
| BusStopObjects.SpawnNameSuffix | ai_automation.py:262-270 | a spawn name is the stop name, a dot and digits that read back as the index, exactly 3 below 1000 |
| BusStopObjects.SpawnsEvenlySpaced | ai_automation.py:264-268 | neighbouring spawns are `spacing` apart along x and level |
| BusStopObjects.SpawnsCentred | ai_automation.py:264-268 | for an odd count the spawns are symmetric about the stop and the middle one is at its x |
| StopPlacement.ReadPosition | automate_post_conversion.py:209-212 | an entry's Unity position (posX, posY, posZ) from `float(entry.get(key, 0))`; None exactly when a coordinate is present and does not parse |
| StopPlacement.MakeMarkers | automate_post_conversion.py:204-220 | the loop gives the named entries' markers, or fails at the first unreadable coordinate with the markers made so far |
| StopPlacement.ImportEntrypoints | automate_post_conversion.py:175-222 | the markers of the entries read from the file; a missing file gives none |
| StopPlacement.MarkerNamesDistinct | automate_post_conversion.py:213-220 | places with different names get markers `BusStop_<name>` with different names, each at its place |
| StopPlacement.MakeBusstopObjects | automate_post_conversion.py:309-322 | one trigger and five spawns per named entry, in order, or a failure with the objects made so far |
| StopPlacement.CreateAllBusstops | automate_post_conversion.py:280-330 | the bus-stop objects of the file's entries; a missing file gives none |
| StopPlacement.HelperObjectNames | automate_post_conversion.py:309-322 | places with different names get triggers with different names, and no trigger is named like any spawn |
| StopPlacement.CollectPoints | automate_post_conversion.py:443-451 | every entry's position, named or not, or a failure |
| StopPlacement.CreateRoadFromEntrypoints | automate_post_conversion.py:414-456 | a missing file or a failed float() gives no road; otherwise a road named Road exactly when there are at least 2 points, with 2 vertices per point and one face fewer than points |
| StopPlacement.CollectSceneStops | ai_automation.py:463-479 | the named entries as scene stops, None when a float() raises |
| StopPlacement.MakeSceneStopObjects | ai_automation.py:504-506 | stop k gets a trigger `<name>_trigger` 1 above it and five spawns `<name>.000` to `<name>.004`, placed by the spawn rule with count 5 and spacing 0.6 |
| StopPlacement.BuildScene | ai_automation.py:450-506 | no entries stop the script; an unreadable coordinate raises; otherwise, for at least two stops, a road `Road` with two vertices per stop and sidewalks `Sidewalk_Left` and `Sidewalk_Right`, and per stop a trigger and five passenger spawns |
| StopPlacement.MissingCoordinatesAreZero | automate_post_conversion.py:209-211 | an entry without coordinates is placed at the origin |
| StopPlacement.NamedPlacesFail | automate_post_conversion.py:204-211 | the loop fails exactly when some named entry has an unreadable coordinate |
| StopPlacement.NamedPlacesSound | automate_post_conversion.py:204-220 | each place is a named entry's name at that entry's Blender position |
| StopPlacement.UnnamedEntry | automate_post_conversion.py:204-451 | an unnamed readable entry adds a road point but no marker or bus stop |
| StopPlacement.AllPointsCount | automate_post_conversion.py:443-451 | one road point per entry when all are readable |
| StopPlacement.NamedPlacesAllNamed | automate_post_conversion.py:204-220 | with every entry named and readable, each becomes one place with its name, in order |
| StopPlacement.PlacesOfEntries | automate_post_conversion.py:204-220 | the entries read back from the converter's file give one place per stop, named by its identifier |
| StopPlacement.GeneratedFileMarkers | automate_post_conversion.py:175-222 | the helper script run on the converter's entrypoints.txt makes one marker per stop, named `BusStop_<identifier>` |
| StopPlacement.SceneStopsAllNamed | ai_automation.py:463-479 | with every entry named and readable, each becomes one scene stop with its name and rotation, in order |
| StopPlacement.GeneratedFileSceneStops | ai_automation.py:450-479 | the scene script run on the converter's entrypoints.txt gets one stop per stop, named by its identifier, with the rotation float("0") |
| Destinations.Displayed | ai_automation.py:1120 | exactly the first five names, or all of them when there are at most five: a prefix of the list of length min(n, 5) |
| Destinations.GenerateDestinationDisplays | ai_automation.py:1099-1127 | the loop yields the displayed names of the extracted destinations |
| Destinations.GatherDistinct | ai_automation.py:1111-1115 | no name is listed twice and none is empty |
| Destinations.GatherExtends | ai_automation.py:1111-1115 | names already listed keep their places: first-seen order |
| Destinations.GatherMember | ai_automation.py:1111-1115 | a name is listed exactly when some line is `name=` followed by it, up to surrounding white space |
| Destinations.DestinationsWellFormed | ai_automation.py:1103-1120 | for any file the destinations are distinct and non-empty and at most five are displayed; a missing file gives Terminal_A, Terminal_B, Centro, all three displayed |
| Destinations.DestinationMember | ai_automation.py:1106-1115 | a name is a destination of an existing file exactly when some line names it |
| Destinations.GeneratedDestinations | ai_automation.py:1103-1115 | for the converter's entrypoints.txt the destinations are the stops' identifiers, empty and repeated ones skipped, in order |
| ReadmeNote.NoteHasMarker | ai_automation.py:1224-1236 | the note contains "AI-Automated Generation" |
| ReadmeNote.UpdatedHasNote | ai_automation.py:1238-1242 | after the update an existing README has the marker and ends with its old contents |
| ReadmeNote.UpdateIdempotent | ai_automation.py:1217-1242 | updating twice is updating once; a README with the marker is untouched; a missing one stays missing |
| ReadmeNote.UpdatePrepends | ai_automation.py:1238-1239 | without the marker the note is put in front |
| SimplePng.U32BE | automate_post_conversion.py:69 | `struct.pack("!I", n)` is 4 bytes |
| SimplePng.DecodeU32BE | automate_post_conversion.py:69 | four bytes read as a number below 2^32 |
| SimplePng.U32RoundTrip | automate_post_conversion.py:69-71 | the four big-endian bytes read back as the number written |
| SimplePng.PngPack | automate_post_conversion.py:67-71 | None exactly when the data is 2^32 bytes or more; otherwise the chunk is 8 + tag + data bytes long |
| SimplePng.ReadPacked | automate_post_conversion.py:67-71 | a packed chunk reads back as its tag and data with a matching CRC, leaving what follows |
| SimplePng.IhdrData | automate_post_conversion.py:77 | 13 bytes, exactly when width and height fit in 32 bits |
| SimplePng.IhdrReadsBack | automate_post_conversion.py:77 | the IHDR data reads back as width, height, then 8, 2, 0, 0, 0 |
| SimplePng.Pixels | automate_post_conversion.py:83-84 | 3 bytes per pixel |
| SimplePng.Scanline | automate_post_conversion.py:82-84 | a filter byte and 3 bytes per pixel |
| SimplePng.RawScanlines | automate_post_conversion.py:80-84 | the nested loops build the raw image; they raise exactly when a pixel is written with a component outside 0..255 |
| SimplePng.RawImageLength | automate_post_conversion.py:80-84 | the raw image is height × (1 + 3 × width) bytes |
| SimplePng.PixelAt | automate_post_conversion.py:83-84 | byte 3x + k of a row's pixels is colour component k |
| SimplePng.RowAt | automate_post_conversion.py:81-84 | row y of the raw image is the scanline |
| SimplePng.RawImagePixel | automate_post_conversion.py:81-84 | each row starts with filter byte 0, then red, green and blue for every pixel |
| SimplePng.CreateSimplePng | automate_post_conversion.py:54-94 | the bytes written are the encoding of the image, None where `struct.pack` raises |
| SimplePng.EncodeFails | automate_post_conversion.py:74-91 | the file fails exactly for a size outside 32 bits, a bad colour when a pixel is written, or over-long compressed data |
| SimplePng.EncodeReadsBack | automate_post_conversion.py:74-91 | the file is the signature 89 50 4E 47 0D 0A 1A 0A followed by exactly the chunks IHDR, IDAT and an empty IEND, and is 57 bytes longer than the compressed data |

## Left out

- `fetch_elevation_data` and `fetch_osm_data.py` are network I/O. The export's elevations are therefore absent.
- `calculate_rotation_y` and the `math.radians` applied to a trigger's rotation are floating point with no effect on names or indices.
- Opening files, `os.makedirs` and `json.load`/`json.dump` are left out. `convert` returns a map from path to contents instead, and the parsed JSON is a list of elements.
- The readers (ai_automation.py:102-108, 1108-1111; automate_post_conversion.py:183-190, 289-295, 423-429) open files in text mode, so Python has already turned `\r\n` and a lone `\r` into `\n`. The file argument of `EntrypointsParser.ParseEntrypointsText` and `Destinations.ExtractDestinations` is that translated text, and it is split on `\n` only.
- Malformed OSM elements are left out: every element has a type, and every node an id and coordinates. The `KeyError` that `parse_osm_json` raises for a missing `type`, `id`, `lat` or `lon` (osm_to_pbsu.py:35-47, 59-62) is therefore not modelled.
- Consistency.PathsDistinct: paths are built by joining the parts with `/`. `os.path.join` drops the earlier parts when `map_name` or `route_name` is absolute (osm_to_pbsu.py:329-333, 380-406), and that case is not modelled. The lemma is therefore a fact about path strings, not about the files on disk.
- Converter.OsmToPbsuConverter.Convert: does not compute the building centre in the export, because it is float averaging.
- `:.6f` formatting is an uninterpreted function of the runtime record, so the model does not fix the digits it prints.
- Floats are reals: no rounding, infinities, NaN or negative zero.
- All `bpy`/`bmesh` calls, UV unwrapping, modifiers and export-format fallbacks are left out.
- Mesh.StripMesh: models a strip's vertices as (point, side) pairs and not as coordinates, because the road-edge offsets need a square root.
- The ground plane and `generate_buildings_along_road` are left out because they are vertex placement only.
- The building loop of the scene script (`Building_{i}_{type}` naming) is left out; only `create_building_from_footprint` is modelled.
- BusStopObjects.CreateBusstopTrigger: does not model the trigger's scale and rotation, since only name and location are kept.
- StopPlacement.ImportEntrypoints: does not model the sphere radius or marker display size.
- PIL drawing, fonts, noise textures and the preview image are left out. PIL itself is left out too: the PNG model is the fallback path taken when the import fails.
- `subprocess.run` and the Blender timeout are left out.
- Every `main()`, argparse and logging setup is left out.
- README, Blender-script README and checklist templates are left out; only the automation note's text is modelled.
- The counts that are only printed (buildings with height, stops found) are left out.
- A destinations file that exists but cannot be read keeps the default list, as a missing file does, so the model has one case for both.
- `generate_busstop_txt` takes an index and an origin it never uses; the model leaves them out.
- The `entrypoints` field the converter never reads is left out.
- `load_lidar_elevation` is left out: it appears only in the tests, not in the code.
