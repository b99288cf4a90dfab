/** The identifier ("internal name") the converter derives from a stop's
    display name, written out inline five times in osm_to_pbsu.py:
    spaces and hyphens become underscores, then every character that is
    neither alphanumeric nor an underscore is dropped. */
module Naming {
  import opened Text
  import opened Runtime

  /** A character the identifier keeps. */
  predicate Kept(c: char, rt: Runtime) {
    rt.isAlnum(c) || c == '_'
  }

  /** name.replace(' ', '_').replace('-', '_') */
  function Underscored(s: string): (r: string)
    ensures |r| == |s|
    ensures forall k :: 0 <= k < |s| ==> r[k] == (if s[k] == ' ' || s[k] == '-' then '_' else s[k])
  {
    if |s| == 0 then "" else [if s[0] == ' ' || s[0] == '-' then '_' else s[0]] + Underscored(s[1..])
  }

  /** ''.join(c for c in s if c.isalnum() or c == '_') */
  function KeepIdent(s: string, rt: Runtime): (r: string)
    ensures |r| <= |s|
    ensures forall k :: 0 <= k < |r| ==> Kept(r[k], rt)
  {
    if |s| == 0 then "" else (if Kept(s[0], rt) then [s[0]] else "") + KeepIdent(s[1..], rt)
  }

  function Slug(name: string, rt: Runtime): (id: string)
    ensures |id| <= |name|
    ensures forall k :: 0 <= k < |id| ==> Kept(id[k], rt)
    ensures Plausible(rt) ==>
      forall k :: 0 <= k < |id| ==> id[k] != ' ' && id[k] != '-' && id[k] != '=' && !IsSpace(id[k])
  {
    KeepIdent(Underscored(name), rt)
  }

  lemma {:induction false} UnderscoredNoOp(s: string)
    requires forall k :: 0 <= k < |s| ==> s[k] != ' ' && s[k] != '-'
    ensures Underscored(s) == s
  {
  }

  lemma {:induction false} KeepIdentNoOp(s: string, rt: Runtime)
    requires forall k :: 0 <= k < |s| ==> Kept(s[k], rt)
    ensures KeepIdent(s, rt) == s
  {
    if |s| > 0 {
      KeepIdentNoOp(s[1..], rt);
      assert [s[0]] + s[1..] == s;
    }
  }

  /** Deriving the identifier of an identifier changes nothing. */
  lemma SlugIdempotent(name: string, rt: Runtime)
    requires !rt.isAlnum(' ') && !rt.isAlnum('-')
    ensures Slug(Slug(name, rt), rt) == Slug(name, rt)
  {
    var id := Slug(name, rt);
    UnderscoredNoOp(id);
    KeepIdentNoOp(id, rt);
  }

  lemma {:induction false} KeepIdentConcat(a: string, b: string, rt: Runtime)
    ensures KeepIdent(a + b, rt) == KeepIdent(a, rt) + KeepIdent(b, rt)
  {
    if |a| > 0 {
      assert (a + b)[0] == a[0];
      assert (a + b)[1..] == a[1..] + b;
      KeepIdentConcat(a[1..], b, rt);
    } else {
      assert a + b == b;
    }
  }

  lemma {:induction false} UnderscoredConcat(a: string, b: string)
    ensures Underscored(a + b) == Underscored(a) + Underscored(b)
  {
    var l := Underscored(a + b);
    var r := Underscored(a) + Underscored(b);
    assert |l| == |r|;
    forall k | 0 <= k < |l|
      ensures l[k] == r[k]
    {
      if k < |a| {
        assert (a + b)[k] == a[k];
      } else {
        assert (a + b)[k] == b[k - |a|];
      }
    }
  }

  /** A space or hyphen between two words without either becomes '_'. */
  lemma UnderscoredTwoWords(a: string, sep: char, b: string)
    requires sep == ' ' || sep == '-'
    requires forall k :: 0 <= k < |a| ==> a[k] != ' ' && a[k] != '-'
    requires forall k :: 0 <= k < |b| ==> b[k] != ' ' && b[k] != '-'
    ensures Underscored(a + [sep] + b) == a + "_" + b
  {
    UnderscoredConcat(a + [sep], b);
    UnderscoredConcat(a, [sep]);
    UnderscoredNoOp(a);
    UnderscoredNoOp(b);
    assert Underscored([sep]) == "_";
  }

  /** Two words of kept characters, joined by a space or a hyphen, become
      the words joined by an underscore. */
  lemma TwoWords(a: string, sep: char, b: string, rt: Runtime)
    requires sep == ' ' || sep == '-'
    requires forall k :: 0 <= k < |a| ==> rt.isAlnum(a[k]) && a[k] != ' ' && a[k] != '-'
    requires forall k :: 0 <= k < |b| ==> rt.isAlnum(b[k]) && b[k] != ' ' && b[k] != '-'
    ensures Slug(a + [sep] + b, rt) == a + "_" + b
  {
    UnderscoredTwoWords(a, sep, b);
    var w := a + "_" + b;
    assert forall k :: 0 <= k < |w| ==> Kept(w[k], rt) by {
      forall k | 0 <= k < |w|
        ensures Kept(w[k], rt)
      {
        if k < |a| {
          assert w[k] == a[k];
        } else if k > |a| {
          assert w[k] == b[k - |a| - 1];
        }
      }
    }
    KeepIdentNoOp(w, rt);
  }

  /** slug("Stop One") == "Stop_One" */
  lemma SlugStopOne(rt: Runtime)
    requires AsciiAlnum(rt)
    ensures Slug("Stop One", rt) == "Stop_One"
  {
    assert "Stop One" == "Stop" + [' '] + "One";
    assert forall k :: 0 <= k < 4 ==> 'A' <= "Stop"[k] <= 'z' && "Stop"[k] != ' ' && "Stop"[k] != '-';
    assert forall k :: 0 <= k < 3 ==> 'A' <= "One"[k] <= 'z' && "One"[k] != ' ' && "One"[k] != '-';
    assert rt.isAlnum('S') && rt.isAlnum('t') && rt.isAlnum('o') && rt.isAlnum('p');
    assert rt.isAlnum('O') && rt.isAlnum('n') && rt.isAlnum('e');
    TwoWords("Stop", ' ', "One", rt);
    assert "Stop" + "_" + "One" == "Stop_One";
  }

  /** A word, a space, a dropped symbol and a kept character: the space
      becomes '_', the symbol goes, the word and the character stay. */
  lemma WordSymbolChar(w: string, sym: char, d: char, rt: Runtime)
    requires forall k :: 0 <= k < |w| ==> rt.isAlnum(w[k]) && w[k] != ' ' && w[k] != '-'
    requires !rt.isAlnum(sym) && sym != '_' && sym != ' ' && sym != '-'
    requires rt.isAlnum(d) && d != ' ' && d != '-'
    ensures Slug(w + " " + [sym] + [d], rt) == w + "_" + [d]
  {
    var s := w + " " + [sym] + [d];
    var tail := [sym] + [d];
    assert s == w + [' '] + tail;
    UnderscoredTwoWords(w, ' ', tail);
    var u := w + "_" + tail;
    assert u == (w + "_" + [sym]) + [d];
    KeepIdentConcat(w + "_" + [sym], [d], rt);
    KeepIdentConcat(w + "_", [sym], rt);
    assert forall k :: 0 <= k < |w + "_"| ==> Kept((w + "_")[k], rt) by {
      forall k | 0 <= k < |w + "_"|
        ensures Kept((w + "_")[k], rt)
      {
        if k < |w| {
          assert (w + "_")[k] == w[k];
        }
      }
    }
    KeepIdentNoOp(w + "_", rt);
    assert KeepIdent([sym], rt) == [];
    assert KeepIdent([d], rt) == [d];
  }

  /** str.isalnum keeps non-ASCII letters, so "Café #1" keeps its 'é'. */
  lemma SlugKeepsUnicodeLetters(rt: Runtime)
    requires AsciiAlnum(rt) && rt.isAlnum('é') && !rt.isAlnum('#')
    ensures Slug("Café #1", rt) == "Café_1"
  {
    var w := "Café";
    assert forall k :: 0 <= k < |w| ==> w[k] != ' ' && w[k] != '-' && rt.isAlnum(w[k]) by {
      assert rt.isAlnum('C') && rt.isAlnum('a') && rt.isAlnum('f');
    }
    assert rt.isAlnum('1');
    WordSymbolChar(w, '#', '1', rt);
    assert "Café #1" == w + " " + ['#'] + ['1'];
    assert "Café_1" == w + "_" + ['1'];
  }

  /** Two different display names can give the same identifier; the code
      does not detect it. */
  lemma SlugCollides(rt: Runtime)
    ensures "Stop-One" != "Stop One" && Slug("Stop-One", rt) == Slug("Stop One", rt)
  {
    HyphenOrSpace("Stop", "One", rt);
    assert "Stop-One" == "Stop" + ['-'] + "One";
    assert "Stop One" == "Stop" + [' '] + "One";
    assert "Stop-One"[4] != "Stop One"[4];
  }

  lemma HyphenOrSpace(a: string, b: string, rt: Runtime)
    requires forall k :: 0 <= k < |a| ==> a[k] != ' ' && a[k] != '-'
    requires forall k :: 0 <= k < |b| ==> b[k] != ' ' && b[k] != '-'
    ensures Slug(a + ['-'] + b, rt) == Slug(a + [' '] + b, rt)
  {
    UnderscoredTwoWords(a, '-', b);
    UnderscoredTwoWords(a, ' ', b);
  }
}
