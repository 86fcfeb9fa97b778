/** What the settings hold after any run of edits: each what it was last set to. */
module SettingsEdits {
  import opened Sequences
  import opened Address
  import opened Settings

  // --- One line -----------------------------------------------------------------------------

  function Unbreaking(): char -> bool {
    (c: char) => c != '\r' && c != '\n' && c != '\t'
  }

  predicate AreSpaces(text: string) {
    forall i :: 0 <= i < |text| ==> text[i] == ' '
  }

  lemma {:induction false} UnbrokenIsFilter(text: string)
    ensures Unbroken(text) == Filter(text, Unbreaking())
  {
    if text != [] {
      UnbrokenIsFilter(text[1..]);
    }
  }

  lemma {:induction false} LeftSpaces(text: string) returns (front: string)
    ensures AreSpaces(front) && text == front + LeftTrimmed(text)
  {
    if text == [] || text[0] != ' ' {
      front := [];
    } else {
      front := LeftSpaces(text[1..]);
      front := [' '] + front;
      assert text == [' '] + text[1..];
    }
  }

  lemma {:induction false} RightSpaces(text: string) returns (back: string)
    ensures AreSpaces(back) && text == RightTrimmed(text) + back
  {
    var n := |text| - 1;
    if text == [] || text[n] != ' ' {
      back := [];
    } else {
      back := RightSpaces(text[..n]);
      back := back + [' '];
      assert text == text[..n] + [' '];
    }
  }

  /** What is stored of a text is the text without its breaks and tabs, and without the
      spaces around that. */
  lemma LineIsTheText(text: string) returns (front: string, back: string)
    ensures Filter(text, Unbreaking()) == front + OneLine(text) + back && AreSpaces(front) && AreSpaces(back)
    ensures OneLine(text) != [] ==> OneLine(text)[0] != ' ' && OneLine(text)[|OneLine(text)| - 1] != ' '
  {
    UnbrokenIsFilter(text);
    OneLineIs(text);
    front, back := TrimmedIsMiddle(Unbroken(text));
  }

  lemma TrimmedIsMiddle(text: string) returns (front: string, back: string)
    ensures text == front + RightTrimmed(LeftTrimmed(text)) + back && AreSpaces(front) && AreSpaces(back)
  {
    front := LeftSpaces(text);
    var rest := LeftTrimmed(text);
    back := RightSpaces(rest);
    Associates(front, RightTrimmed(rest), back);
  }

  /** A directory loses the separators at its end, and keeps at least the three characters
      of a drive. */
  lemma {:induction false} DirectoryLosesSeparators(path: string)
    ensures var kept := WithoutSeparator(path);
            && kept <= path && (forall i :: |kept| <= i < |path| ==> path[i] == '\\' || path[i] == '/')
            && (|kept| > 3 ==> kept[|kept| - 1] != '\\' && kept[|kept| - 1] != '/')
            && (kept != path ==> |kept| >= 3)
  {
    if |path| > 3 && (path[|path| - 1] == '\\' || path[|path| - 1] == '/') {
      DirectoryLosesSeparators(path[..|path| - 1]);
    }
  }

  // --- What was last set ----------------------------------------------------------------------

  datatype Maybe<T> = Nothing | Just(value: T)

  /** The last thing any of the edits says, or what was there before. */
  function LastOf<T>(edits: seq<Edit>, says: Edit -> Maybe<T>, was: T): T {
    if edits == [] then was
    else
      match says(edits[|edits| - 1])
      case Just(value) => value
      case Nothing => LastOf(edits[..|edits| - 1], says, was)
  }

  function SaysHome(edit: Edit): Maybe<string> {
    match edit
    case SetHome(text) => Just(if OneLine(text) == [] then DEFAULT_HOME else OneLine(text))
    case _ => Nothing
  }

  function SaysNewTab(edit: Edit): Maybe<bool> {
    match edit
    case SetNewTab(on) => Just(on)
    case _ => Nothing
  }

  function SaysZoom(edit: Edit): Maybe<int> {
    match edit
    case SetZoom(percent) => Just(if percent < 25 then 25 else if percent > 500 then 500 else percent)
    case _ => Nothing
  }

  function SaysJavaScript(edit: Edit): Maybe<bool> {
    match edit
    case SetJavaScript(on) => Just(on)
    case _ => Nothing
  }

  function SaysImages(edit: Edit): Maybe<bool> {
    match edit
    case SetImages(on) => Just(on)
    case _ => Nothing
  }

  function SaysPopups(edit: Edit): Maybe<bool> {
    match edit
    case SetPopups(on) => Just(on)
    case _ => Nothing
  }

  function SaysDoNotTrack(edit: Edit): Maybe<bool> {
    match edit
    case SetDoNotTrack(on) => Just(on)
    case _ => Nothing
  }

  function SaysDownloads(edit: Edit): Maybe<string> {
    match edit
    case SetDownloads(text) => Just(WithoutSeparator(OneLine(text)))
    case _ => Nothing
  }

  function Or<T>(says: Maybe<T>, was: T): T {
    match says
    case Just(value) => value
    case Nothing => was
  }

  /** An edit changes the one setting it is of. */
  ghost predicate IsEdited(values: Values, edit: Edit, after: Values) {
    && after.home == Or(SaysHome(edit), values.home)
    && after.newTab == Or(SaysNewTab(edit), values.newTab)
    && after.zoom == Or(SaysZoom(edit), values.zoom)
    && after.javaScript == Or(SaysJavaScript(edit), values.javaScript)
    && after.images == Or(SaysImages(edit), values.images)
    && after.popups == Or(SaysPopups(edit), values.popups)
    && after.doNotTrack == Or(SaysDoNotTrack(edit), values.doNotTrack)
    && after.downloads == Or(SaysDownloads(edit), values.downloads)
  }

  lemma HomeSaysIt(values: Values, text: string)
    ensures IsEdited(values, SetHome(text), Edited(values, SetHome(text)))
  {
  }

  lemma DownloadsSayIt(values: Values, text: string)
    ensures IsEdited(values, SetDownloads(text), Edited(values, SetDownloads(text)))
  {
  }

  lemma SwitchSaysIt(values: Values, edit: Edit)
    requires edit.SetJavaScript? || edit.SetImages? || edit.SetPopups? || edit.SetDoNotTrack?
    ensures IsEdited(values, edit, Edited(values, edit))
  {
  }

  lemma PlainSaysIt(values: Values, edit: Edit)
    requires edit.SetNewTab? || edit.SetZoom? || edit.ChooseEngine?
    ensures IsEdited(values, edit, Edited(values, edit))
  {
  }

  lemma EngineSaysIt(values: Values, edit: Edit)
    requires edit.AddEngine? || edit.UpdateEngine? || edit.RemoveEngine?
    ensures IsEdited(values, edit, Edited(values, edit))
  {
    OnlyEnginesChange(values, edit);
  }

  lemma OnlyEnginesChange(values: Values, edit: Edit)
    requires edit.AddEngine? || edit.UpdateEngine? || edit.RemoveEngine?
    ensures var after := Edited(values, edit);
            values == after.(engines := values.engines, chosen := values.chosen)
  {
  }

  lemma EditSaysIt(values: Values, edit: Edit)
    ensures IsEdited(values, edit, Edited(values, edit))
  {
    match edit
    case SetHome(text) => HomeSaysIt(values, text);
    case SetDownloads(text) => DownloadsSayIt(values, text);
    case AddEngine(_, _) => EngineSaysIt(values, edit);
    case UpdateEngine(_, _, _) => EngineSaysIt(values, edit);
    case RemoveEngine(_) => EngineSaysIt(values, edit);
    case SetNewTab(_) => PlainSaysIt(values, edit);
    case SetZoom(_) => PlainSaysIt(values, edit);
    case ChooseEngine(_) => PlainSaysIt(values, edit);
    case _ => SwitchSaysIt(values, edit);
  }

  lemma {:induction false} PagesHoldTheLast(values: Values, edits: seq<Edit>)
    ensures Run(values, edits).home == LastOf(edits, SaysHome, values.home)
    ensures Run(values, edits).newTab == LastOf(edits, SaysNewTab, values.newTab)
  {
    if edits != [] {
      PagesHoldTheLast(values, edits[..|edits| - 1]);
      EditSaysIt(Run(values, edits[..|edits| - 1]), edits[|edits| - 1]);
    }
  }

  lemma {:induction false} PlacesHoldTheLast(values: Values, edits: seq<Edit>)
    ensures Run(values, edits).zoom == LastOf(edits, SaysZoom, values.zoom)
    ensures Run(values, edits).downloads == LastOf(edits, SaysDownloads, values.downloads)
  {
    if edits != [] {
      PlacesHoldTheLast(values, edits[..|edits| - 1]);
      EditSaysIt(Run(values, edits[..|edits| - 1]), edits[|edits| - 1]);
    }
  }

  lemma {:induction false} ScriptsHoldTheLast(values: Values, edits: seq<Edit>)
    ensures Run(values, edits).javaScript == LastOf(edits, SaysJavaScript, values.javaScript)
    ensures Run(values, edits).images == LastOf(edits, SaysImages, values.images)
  {
    if edits != [] {
      ScriptsHoldTheLast(values, edits[..|edits| - 1]);
      EditSaysIt(Run(values, edits[..|edits| - 1]), edits[|edits| - 1]);
    }
  }

  lemma {:induction false} PermissionsHoldTheLast(values: Values, edits: seq<Edit>)
    ensures Run(values, edits).popups == LastOf(edits, SaysPopups, values.popups)
    ensures Run(values, edits).doNotTrack == LastOf(edits, SaysDoNotTrack, values.doNotTrack)
  {
    if edits != [] {
      PermissionsHoldTheLast(values, edits[..|edits| - 1]);
      EditSaysIt(Run(values, edits[..|edits| - 1]), edits[|edits| - 1]);
    }
  }

  /** Every setting but the engines holds what it was last set to. */
  lemma EveryRunHoldsTheLast(values: Values, edits: seq<Edit>)
    ensures var after := Run(values, edits);
            && after.home == LastOf(edits, SaysHome, values.home)
            && after.newTab == LastOf(edits, SaysNewTab, values.newTab)
            && after.zoom == LastOf(edits, SaysZoom, values.zoom)
            && after.downloads == LastOf(edits, SaysDownloads, values.downloads)
            && after.javaScript == LastOf(edits, SaysJavaScript, values.javaScript)
            && after.images == LastOf(edits, SaysImages, values.images)
            && after.popups == LastOf(edits, SaysPopups, values.popups)
            && after.doNotTrack == LastOf(edits, SaysDoNotTrack, values.doNotTrack)
  {
    PagesHoldTheLast(values, edits);
    PlacesHoldTheLast(values, edits);
    ScriptsHoldTheLast(values, edits);
    PermissionsHoldTheLast(values, edits);
  }

  // --- Engines --------------------------------------------------------------------------------

  /** A token at a place of a template. */
  predicate HasTermsAt(query: string, at: int) {
    0 <= at <= |query| - 13 && query[at..at + 13] == "{searchTerms}"
  }

  lemma {:induction false} TermsAtIsFirst(query: string)
    ensures if TermsAt(query) < 0 then forall at :: !HasTermsAt(query, at)
            else HasTermsAt(query, TermsAt(query)) && forall at :: 0 <= at < TermsAt(query) ==> !HasTermsAt(query, at)
  {
    assert |TERMS| == 13;
    assert HasTermsAt(query, 0) <==> StartsWith(query, TERMS);
    if !StartsWith(query, TERMS) && query != [] {
      TermsAtIsFirst(query[1..]);
      forall at | at > 0
        ensures HasTermsAt(query, at) <==> HasTermsAt(query[1..], at - 1)
      {
        if at <= |query| - 13 {
          assert query[1..][at - 1..at + 12] == query[at..at + 13];
        }
      }
    }
  }

  ghost predicate CanSearch(name: string, query: string) {
    OneLine(name) != [] && exists at :: HasTermsAt(OneLine(query), at)
  }

  lemma UsableExactly(name: string, query: string)
    ensures IsUsable(EngineOf(name, query)) <==> CanSearch(name, query)
  {
    TermsAtIsFirst(OneLine(query));
  }

  /** An engine with a name and a place for the phrase is added last, or put in the place of
      another; one without is not. Any engine can be taken away but the last one left. The
      others stay as they are, in their order. */
  lemma EnginesAfter(values: Values, edit: Edit)
    ensures var (was, now) := (values.engines, Edited(values, edit).engines);
            match edit
            case AddEngine(name, query) =>
              now == was + (if CanSearch(name, query) then [Engine(OneLine(name), OneLine(query))] else [])
            case UpdateEngine(index, name, query) =>
              && |now| == |was|
              && forall i :: 0 <= i < |was| ==>
                   now[i] == if i != index || !CanSearch(name, query) then was[i]
                             else Engine(OneLine(name), OneLine(query))
            case RemoveEngine(index) =>
              if 0 <= index < |was| && |was| > 1 then
                |now| == |was| - 1 && forall i :: 0 <= i < |now| ==> now[i] == was[if i < index then i else i + 1]
              else now == was
            case _ => now == was
  {
    match edit
    case AddEngine(name, query) =>
      UsableExactly(name, query);
      assert values.engines + [] == values.engines;
    case UpdateEngine(_, name, query) => UsableExactly(name, query);
    case _ =>
  }

  /** The choice changes when one is made of an engine there is, and when an engine is taken
      away: to the first one when it was the chosen one, and along with its own otherwise. */
  lemma ChoiceAfter(values: Values, edit: Edit)
    ensures Edited(values, edit).chosen ==
            match edit
            case ChooseEngine(index) => if 0 <= index < |values.engines| then index else values.chosen
            case RemoveEngine(index) =>
              if !(0 <= index < |values.engines|) || |values.engines| == 1 || values.chosen < index then values.chosen
              else if values.chosen == index then 0 else values.chosen - 1
            case _ => values.chosen
  {
  }

  /** A search puts the phrase, spelled so that no server can take it for anything else,
      where the chosen engine first asks for it, and leaves the rest of the template. */
  lemma SearchFillsIn(values: Values, phrase: string) returns (at: int, middle: string)
    requires IsSound(values) && IsBytes(phrase)
    ensures var query := values.engines[values.chosen].query;
            && HasTermsAt(query, at) && (forall i :: 0 <= i < at ==> !HasTermsAt(query, i))
            && SearchUrl(values, phrase) == query[..at] + middle + query[at + 13..]
    ensures PercentDecoded(middle) == phrase && forall c <- middle :: IsUnreserved(c) || c == '%'
  {
    var query := values.engines[values.chosen].query;
    assert values.engines[values.chosen] in values.engines;
    TermsAtIsFirst(query);
    DecodeUndoesPercent(phrase);
    at, middle := TermsAt(query), PercentEncoded(phrase);
  }
}
