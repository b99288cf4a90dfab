/** update_readme (ai_automation.py:1213-1242): put a note about automated
    generation in front of the map's README.md, unless the text
    "AI-Automated Generation" is already in it. A missing README is left
    missing. */
module ReadmeNote {
  import opened Text

  const Marker: string := "AI-Automated Generation"

  /** The heading line up to the marker: "## ", the sparkles sign, a space. */
  const HeadingStart: string := "## \U{2728} "

  /** The note after the marker. */
  const NoteRest: string :=
    "\n\nThis map was automatically generated using AI-powered automation:\n"
    + "- \U{2713} 3D models generated automatically from OSM data\n"
    + "- \U{2713} Procedural textures created automatically\n"
    + "- \U{2713} Destination displays generated automatically\n"
    + "- \U{2713} Preview image created automatically\n"
    + "\nThe map is ready to use in Proton Bus Simulator!\n"
    + "\n---\n\n"

  const AutomationNote: string := HeadingStart + Marker + NoteRest

  predicate HasNote(content: string) {
    Contains(content, Marker)
  }

  /** The README after update_readme; None stands for a missing file. */
  function UpdateReadme(readme: Option<string>): (after: Option<string>) {
    match readme
    case None => None
    case Some(content) => if HasNote(content) then Some(content) else Some(AutomationNote + content)
  }

  /** The note itself carries the marker. */
  lemma NoteHasMarker()
    ensures HasNote(AutomationNote)
  {
    ContainsMiddle(HeadingStart, Marker, NoteRest);
  }

  /** After the update an existing README carries the marker, and it still
      ends with everything it held before. */
  lemma UpdatedHasNote(content: string)
    ensures var after := UpdateReadme(Some(content));
      && after.Some?
      && HasNote(after.value)
      && after.value[|after.value| - |content|..] == content
  {
    if !HasNote(content) {
      var s := AutomationNote + content;
      ContainsMiddle(HeadingStart, Marker, NoteRest + content);
      assert s == HeadingStart + Marker + (NoteRest + content);
      assert s[|s| - |content|..] == content;
    }
  }

  /** Updating twice is updating once; a README that already mentions the
      marker is not touched; a missing one stays missing. */
  lemma UpdateIdempotent(readme: Option<string>)
    ensures UpdateReadme(UpdateReadme(readme)) == UpdateReadme(readme)
    ensures readme.Some? && HasNote(readme.value) ==> UpdateReadme(readme) == readme
    ensures readme.None? <==> UpdateReadme(readme).None?
  {
    if readme.Some? {
      UpdatedHasNote(readme.value);
    }
  }

  /** Without the marker the note is put in front, once. */
  lemma UpdatePrepends(content: string)
    requires !HasNote(content)
    ensures UpdateReadme(Some(content)) == Some(AutomationNote + content)
    ensures |UpdateReadme(Some(content)).value| == |AutomationNote| + |content|
  {
  }
}
