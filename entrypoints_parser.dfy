/** The section/key=value reader of entrypoints.txt (parse_entrypoints,
    ai_automation.py:96-121). The three helper scripts written by
    automate_post_conversion.py (lines 186-201, 292-306 and 426-440) carry
    the same loop character for character, so one model serves all four.

    Each line is stripped. A line starting with "[entrypoint_" closes the
    entry being filled (kept only when it has a key) and opens an empty one;
    otherwise a line holding '=' sets the text before its first '=' to the
    text after it; any other line is skipped. After the last line the open
    entry is kept when it has a key. */
module EntrypointsParser {
  import opened Text

  type Entry = map<string, string>

  /** The finished entries and the one being filled. */
  datatype ParseState = ParseState(entries: seq<Entry>, current: Entry)

  const Header: string := "[entrypoint_"

  const Initial: ParseState := ParseState([], map[])

  /** `if current_entry: entries.append(current_entry)`: the finished
      entries stay as they are, and the open one follows them only when it
      has a key, so closing never stores an empty entry. */
  function Close(st: ParseState): (entries: seq<Entry>)
    ensures st.entries <= entries && |entries| <= |st.entries| + 1
    ensures |entries| > |st.entries| <==> st.current != map[]
    ensures |entries| > |st.entries| ==> entries[|st.entries|] == st.current
    ensures map[] !in st.entries ==> map[] !in entries
  {
    if st.current != map[] then st.entries + [st.current] else st.entries
  }

  /** The three kinds of line the reader tells apart. */
  datatype Line = HeaderLine | Pair(key: string, value: string) | Skipped

  /** How one raw line is read: stripped, then a header, a key=value pair
      split at the first '=', or nothing. */
  function Classify(raw: string): Line {
    var line := Strip(raw);
    if StartsWith(line, Header) then HeaderLine
    else if '=' in line then
      var i := FirstIndex(line, '=');
      Pair(line[..i], line[i + 1..])
    else Skipped
  }

  /** A line is a header exactly when its stripped text starts with the
      header; it is skipped exactly when it is neither a header nor holds
      '='; a pair splits the stripped text at its first '='. */
  lemma ClassifyMeaning(raw: string)
    ensures var l := Classify(raw);
      && (l.HeaderLine? <==> StartsWith(Strip(raw), Header))
      && (l.Skipped? <==> !StartsWith(Strip(raw), Header) && '=' !in Strip(raw))
      && (l.Pair? ==> '=' !in l.key && Strip(raw) == l.key + "=" + l.value)
  {
    var line := Strip(raw);
    if !StartsWith(line, Header) && '=' in line {
      CutAt(line, FirstIndex(line, '='));
    }
  }

  /** What one classified line does to the state. */
  function Apply(st: ParseState, l: Line): ParseState {
    match l
    case HeaderLine => ParseState(Close(st), map[])
    case Pair(k, v) => ParseState(st.entries, st.current[k := v])
    case Skipped => st
  }

  /** The lines processed from first to last. */
  function Run(st: ParseState, lines: seq<Line>): ParseState
    decreases |lines|
  {
    if |lines| == 0 then st else Run(Apply(st, lines[0]), lines[1..])
  }

  function ClassifyAll(raw: seq<string>): (ls: seq<Line>)
    ensures |ls| == |raw|
    ensures forall k :: 0 <= k < |raw| ==> ls[k] == Classify(raw[k])
  {
    seq(|raw|, k requires 0 <= k < |raw| => Classify(raw[k]))
  }

  /** The entries read from a file's whole text (split at '\n'). */
  function ParseEntrypointsText(content: string): seq<Entry> {
    Close(Run(Initial, ClassifyAll(Split(content, '\n'))))
  }

  /** parse_entrypoints; a missing file (None) gives no entries. */
  method ParseEntrypoints(file: Option<string>) returns (entries: seq<Entry>)
    ensures file.None? ==> entries == []
    ensures file.Some? ==> entries == ParseEntrypointsText(file.value)
    ensures forall k :: 0 <= k < |entries| ==> entries[k] != map[]
  {
    if file.None? {
      return [];
    }
    var lines := Split(file.value, '\n');
    ghost var ls := ClassifyAll(lines);
    entries := [];
    var current: Entry := map[];
    for i := 0 to |lines|
      invariant Run(ParseState(entries, current), ls[i..]) == Run(Initial, ls)
      invariant forall k :: 0 <= k < |entries| ==> entries[k] != map[]
    {
      assert ls[i..][1..] == ls[i + 1..];
      RunCons(ParseState(entries, current), ls[i..]);
      ghost var before := ParseState(entries, current);
      var line := Strip(lines[i]);
      if StartsWith(line, Header) {
        if current != map[] {
          entries := entries + [current];
        }
        current := map[];
      } else if '=' in line {
        var j := FirstIndex(line, '=');
        var key := line[..j];
        var value := line[j + 1..];
        current := current[key := value];
      }
      assert ParseState(entries, current) == Apply(before, Classify(lines[i]));
    }
    if current != map[] {
      entries := entries + [current];
    }
  }

  // ---------------------------------------------------------------
  // Properties of the reader

  lemma RunCons(st: ParseState, lines: seq<Line>)
    requires |lines| > 0
    ensures Run(st, lines) == Run(Apply(st, lines[0]), lines[1..])
  {
  }

  /** Processing a + b is processing a, then b from where a left off. */
  lemma {:induction false} RunAppend(st: ParseState, a: seq<Line>, b: seq<Line>)
    ensures Run(st, a + b) == Run(Run(st, a), b)
    decreases |a|
  {
    if |a| > 0 {
      RunAppend(Apply(st, a[0]), a[1..], b);
      assert (a + b)[0] == a[0];
      assert (a + b)[1..] == a[1..] + b;
    } else {
      assert a + b == b;
    }
  }

  lemma {:induction false} ClassifyAllAppend(a: seq<string>, b: seq<string>)
    ensures ClassifyAll(a + b) == ClassifyAll(a) + ClassifyAll(b)
  {
    var l := ClassifyAll(a + b);
    var r := ClassifyAll(a) + ClassifyAll(b);
    assert |l| == |r|;
    forall k | 0 <= k < |l|
      ensures l[k] == r[k]
    {
      if k < |a| {
        assert (a + b)[k] == a[k];
      } else {
        assert (a + b)[k] == b[k - |a|];
      }
    }
  }

  predicate EntriesNonEmpty(entries: seq<Entry>) {
    forall k :: 0 <= k < |entries| ==> entries[k] != map[]
  }

  /** No step ever stores an empty entry. */
  lemma {:induction false} RunKeepsNonEmpty(st: ParseState, lines: seq<Line>)
    requires EntriesNonEmpty(st.entries)
    ensures EntriesNonEmpty(Run(st, lines).entries)
    decreases |lines|
  {
    if |lines| > 0 {
      RunKeepsNonEmpty(Apply(st, lines[0]), lines[1..]);
    }
  }

  /** Every entry read has at least one key, whatever the text. */
  lemma ParsedEntriesNonEmpty(content: string)
    ensures EntriesNonEmpty(ParseEntrypointsText(content))
  {
    RunKeepsNonEmpty(Initial, ClassifyAll(Split(content, '\n')));
  }

  /** A key=value line splits at its first '=' only: the key holds no '=',
      the value may, and is read as written. */
  lemma KeyValueLine(key: string, value: string)
    requires '=' !in key && |key| > 0 && !IsSpace(key[0]) && key[0] != '['
    requires value == [] || !IsSpace(value[|value| - 1])
    ensures Classify(key + "=" + value) == Pair(key, value)
  {
    var line := key + "=" + value;
    KeyValueUnstripped(key, value);
    assert line == key + ['='] + value;
    assert !StartsWith(line, Header) by {
      assert line[0] == key[0];
    }
    FirstIndexAfterKey(key, '=', value);
    assert line[..|key|] == key;
    assert line[|key| + 1..] == value;
  }

  lemma KeyValueUnstripped(key: string, value: string)
    requires |key| > 0 && !IsSpace(key[0])
    requires value == [] || !IsSpace(value[|value| - 1])
    ensures Strip(key + "=" + value) == key + "=" + value
  {
    var line := key + "=" + value;
    assert line[0] == key[0];
    assert line[|line| - 1] == if value == [] then '=' else value[|value| - 1];
    StripUnchanged(line);
  }

  /** A line made of the header and more text, with no whitespace at its
      end, is a header line. */
  lemma HeaderWithRest(rest: string)
    requires rest != [] && !IsSpace(rest[|rest| - 1])
    ensures Classify(Header + rest) == HeaderLine
  {
    var h := Header + rest;
    assert h[0] == '[';
    assert h[|h| - 1] == rest[|rest| - 1];
    StripUnchanged(h);
    assert h[..|Header|] == Header;
  }

  /** Of two values for the same key the later one is kept; the entries
      already closed are left alone. */
  lemma RepeatedKeyOverwrites(st: ParseState, key: string, v1: string, v2: string)
    ensures Run(st, [Pair(key, v1), Pair(key, v2)]) == ParseState(st.entries, st.current[key := v2])
  {
    var ls := [Pair(key, v1), Pair(key, v2)];
    var s1 := ParseState(st.entries, st.current[key := v1]);
    RunCons(st, ls);
    assert ls[1..] == [Pair(key, v2)];
    RunCons(s1, ls[1..]);
    assert ls[1..][1..] == [];
    assert s1.current[key := v2] == st.current[key := v2];
  }

  /** Lines of no kind never change the state. */
  lemma {:induction false} SkippedLinesChangeNothing(st: ParseState, lines: seq<Line>)
    requires forall k :: 0 <= k < |lines| ==> lines[k].Skipped?
    ensures Run(st, lines) == st
    decreases |lines|
  {
    if |lines| > 0 {
      SkippedLinesChangeNothing(st, lines[1..]);
    }
  }

  /** A header with nothing open before it pushes nothing: no empty entry
      is ever read, not even for two headers in a row. */
  lemma HeaderAfterHeader(st: ParseState)
    ensures Run(st, [HeaderLine, HeaderLine]) == ParseState(Close(st), map[])
  {
    var ls := [HeaderLine, HeaderLine];
    assert ls[1..] == [HeaderLine];
    assert ls[1..][1..] == [];
  }
}
