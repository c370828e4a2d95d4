/**
 * The avatar placeholder: up to two initials taken from a name, shown in
 * white on black, or a generic person icon on grey when there are none.
 */
module ProfilePlaceholder {
  import opened Optional
  import opened JsText

  /** `parts.map(p => p.charAt(0)).join("")`: the first character of each
      piece, an empty piece contributing nothing. */
  function FirstLetters(parts: seq<string>): (r: string)
    ensures |r| <= |parts|
    ensures (forall i :: 0 <= i < |parts| ==> parts[i] != []) ==>
      |r| == |parts| && forall i :: 0 <= i < |parts| ==> r[i] == parts[i][0]
  {
    if parts == [] then ""
    else
      var rest := FirstLetters(parts[1..]);
      (if parts[0] == [] then "" else [parts[0][0]]) + rest
  }

  /** The words of a name: `name.trim().split(/\s+/)`. */
  function Words(name: string): (words: seq<string>)
    ensures Trim(name) != [] ==> forall i :: 0 <= i < |words| ==> words[i] != [] && NoWhitespace(words[i])
  {
    var t := Trim(name);
    var words := SplitWhitespace(t);
    if t != [] then
      SplitTrimmedHasNoEmptyPiece(t);
      assert forall i :: 0 <= i < |words| ==> words[i] in words;
      words
    else words
  }

  /** The words of a name are the pieces it was written with: whatever
      whitespace surrounds the name and however long the runs between its
      words, `Words` gives back exactly those words. */
  lemma WordsOfJoin(lead: string, parts: seq<string>, seps: seq<string>, trail: string)
    requires |parts| >= 1 && |seps| == |parts| - 1
    requires forall i :: 0 <= i < |parts| ==> parts[i] != [] && NoWhitespace(parts[i])
    requires forall i :: 0 <= i < |seps| ==> IsWhitespaceRun(seps[i])
    requires forall i :: 0 <= i < |lead| ==> IsWhitespace(lead[i])
    requires forall i :: 0 <= i < |trail| ==> IsWhitespace(trail[i])
    ensures Words(lead + JoinRuns(parts, seps) + trail) == parts
  {
    var body := JoinRuns(parts, seps);
    var name := lead + body + trail;
    var last := parts[|parts| - 1];
    JoinRunsEnds(parts, seps);
    assert body[0] == parts[0][0];
    assert body[|body| - 1] == last[|last| - 1] by {
      assert body[|body| - |last|..][|last| - 1] == last[|last| - 1];
    }
    assert name[|lead|..|lead| + |body|] == body;
    TrimAt(name, |lead|, |body|);
    SplitJoinRuns(parts, seps);
  }

  /** `initials`: undefined when the name is; otherwise the upper-cased first
      letters of the first two words, in order, and "" when the name is empty
      or only whitespace. */
  function Initials(name: Option<string>): (r: Option<string>)
    ensures name.None? <==> r.None?
    ensures r.Some? ==> |r.value| <= 2 && HasNoAsciiLower(r.value)
    ensures name.Some? && Trim(name.value) == [] ==> r == Some("")
    ensures name.Some? && Trim(name.value) != [] ==> var words := Words(name.value);
      && |r.value| == (if |words| < 2 then |words| else 2)
      && forall i :: 0 <= i < |r.value| ==> r.value[i] == UpperChar(words[i][0])
  {
    if name.None? then None
    else
      var letters := FirstLetters(Words(name.value));
      var kept := letters[..if |letters| < 2 then |letters| else 2];
      ToUpperHasNoLower(kept);
      if Trim(name.value) == [] then
        assert Words(name.value) == [""];
        Some(ToUpper(kept))
      else Some(ToUpper(kept))
  }

  /** A name that is only whitespace gives no initials and so the icon. */
  lemma BlankNameShowsIcon(name: string)
    requires forall i :: 0 <= i < |name| ==> IsWhitespace(name[i])
    ensures ShowsIcon(Some(name)) && Background(Some(name)) == "#D9D9D9"
  {
    TrimEmptyIff(name);
  }

  /** A name with a non-whitespace character gives at least one initial. */
  lemma NamedShowsInitials(name: string, k: nat)
    requires k < |name| && !IsWhitespace(name[k])
    ensures !ShowsIcon(Some(name)) && Background(Some(name)) == "black"
  {
    TrimEmptyIff(name);
    assert |Words(name)| >= 1;
  }

  /** The icon is drawn exactly when the initials are missing or empty. */
  function ShowsIcon(name: Option<string>): (icon: bool)
    ensures icon <==> name.None? || Trim(name.value) == []
  {
    var r := Initials(name);
    assert r.Some? && name.Some? && Trim(name.value) != [] ==> |Words(name.value)| >= 1;
    r.None? || r.value == ""
  }

  /** `initials ? "black" : "#D9D9D9"`: black behind initials, grey behind
      the icon. */
  function Background(name: Option<string>): (colour: string)
    ensures colour == "black" <==> !ShowsIcon(name)
    ensures colour == "black" || colour == "#D9D9D9"
  {
    var r := Initials(name);
    if r.Some? && r.value != "" then "black" else "#D9D9D9"
  }
}
