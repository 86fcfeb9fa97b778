/** What a person can set, and the search engines that turn a typed phrase into an
    address. */
module Settings {
  import opened Address

  datatype Engine = Engine(name: string, query: string)

  datatype Values = Values(
    home: string, newTab: bool, engines: seq<Engine>, chosen: int, zoom: int,
    javaScript: bool, images: bool, popups: bool, doNotTrack: bool, downloads: string)

  const DEFAULT_HOME := "https://www.google.com/"
  const DEFAULT_ZOOM := 100
  const MINIMUM_ZOOM := 25
  const MAXIMUM_ZOOM := 500
  const TERMS := "{searchTerms}"

  const GOOGLE := Engine("Google", "https://www.google.com/search?q=" + TERMS)
  const DUCK_DUCK_GO := Engine("DuckDuckGo", "https://duckduckgo.com/?q=" + TERMS)
  const BING := Engine("Bing", "https://www.bing.com/search?q=" + TERMS)
  const WIKIPEDIA := Engine("Wikipedia", "https://en.wikipedia.org/w/index.php?search=" + TERMS)
  const DEFAULT_ENGINES := [GOOGLE, DUCK_DUCK_GO, BING, WIKIPEDIA]

  const DEFAULTS := Values(DEFAULT_HOME, false, DEFAULT_ENGINES, 0, DEFAULT_ZOOM, true, true, false, false, "")

  // --- One line -----------------------------------------------------------------------------

  predicate Breaks(c: char) {
    c == '\r' || c == '\n' || c == '\t'
  }

  function Unbroken(text: string): string {
    if text == [] then []
    else (if Breaks(text[0]) then [] else [text[0]]) + Unbroken(text[1..])
  }

  function LeftTrimmed(text: string): string {
    if text == [] || text[0] != ' ' then text else LeftTrimmed(text[1..])
  }

  function RightTrimmed(text: string): string {
    if text == [] || text[|text| - 1] != ' ' then text else RightTrimmed(text[..|text| - 1])
  }

  function OneLine(text: string): string {
    RightTrimmed(LeftTrimmed(Unbroken(text)))
  }

  ghost predicate IsOneLine(text: string) {
    && (forall c <- text :: !Breaks(c))
    && (text != [] ==> text[0] != ' ' && text[|text| - 1] != ' ')
  }

  lemma {:induction false} UnbrokenIs(text: string)
    ensures forall c <- Unbroken(text) :: !Breaks(c) && c in text
    ensures (forall c <- text :: !Breaks(c)) ==> Unbroken(text) == text
  {
    if text != [] {
      UnbrokenIs(text[1..]);
      assert text == [text[0]] + text[1..];
    }
  }

  lemma {:induction false} LeftTrimmedIs(text: string)
    ensures var t := LeftTrimmed(text);
            && (forall c <- t :: c in text) && (t != [] ==> t[0] != ' ')
            && |t| <= |text| && t == text[|text| - |t|..]
  {
    if text != [] && text[0] == ' ' {
      LeftTrimmedIs(text[1..]);
      var t := LeftTrimmed(text[1..]);
      assert text[1..][|text| - 1 - |t|..] == text[|text| - |t|..];
    }
  }

  lemma {:induction false} RightTrimmedIs(text: string)
    ensures RightTrimmed(text) <= text
    ensures var t := RightTrimmed(text); t != [] ==> t[|t| - 1] != ' '
  {
    if text != [] && text[|text| - 1] == ' ' {
      RightTrimmedIs(text[..|text| - 1]);
    }
  }

  /** What is stored is one line, and a line stored again is the same line. */
  lemma OneLineIs(text: string)
    ensures IsOneLine(OneLine(text))
    ensures IsOneLine(text) ==> OneLine(text) == text
  {
    UnbrokenIs(text);
    LeftTrimmedIs(Unbroken(text));
    RightTrimmedIs(LeftTrimmed(Unbroken(text)));
    var line := OneLine(text);
    assert forall i :: 0 <= i < |line| ==> line[i] in LeftTrimmed(Unbroken(text));
  }

  // --- A phrase in an address -----------------------------------------------------------------

  predicate IsUnreserved(c: char) {
    'A' <= c <= 'Z' || 'a' <= c <= 'z' || '0' <= c <= '9' || c == '-' || c == '.' || c == '_' || c == '~'
  }

  function HexOf(d: int): char
    requires 0 <= d < 16
  {
    "0123456789ABCDEF"[d]
  }

  /** The characters of a phrase are its bytes. */
  predicate IsBytes(text: string) {
    forall i :: 0 <= i < |text| ==> text[i] as int < 256
  }

  function PercentByte(c: char): string
    requires c as int < 256
  {
    if IsUnreserved(c) then [c] else ['%', HexOf(c as int / 16), HexOf(c as int % 16)]
  }

  function PercentEncoded(text: string): string
    requires IsBytes(text)
  {
    if text == [] then []
    else PercentByte(text[0]) + PercentEncoded(text[1..])
  }

  function DigitValue(c: char): int {
    if '0' <= c <= '9' then c as int - '0' as int else if 'A' <= c <= 'F' then c as int - 'A' as int + 10 else 0
  }

  /** What a server reads back. */
  function PercentDecoded(text: string): string {
    if |text| < 3 || text[0] != '%' then if text == [] then [] else [text[0]] + PercentDecoded(text[1..])
    else [(16 * DigitValue(text[1]) + DigitValue(text[2])) as char] + PercentDecoded(text[3..])
  }

  lemma HexRoundTrip(d: int)
    requires 0 <= d < 16
    ensures DigitValue(HexOf(d)) == d
  {
    assert "0123456789ABCDEF" == "0123456789" + "ABCDEF";
    if d < 10 {
      assert HexOf(d) == "0123456789"[d];
    } else {
      assert HexOf(d) == "ABCDEF"[d - 10];
    }
  }

  /** Any phrase, whatever it is made of, arrives as it was typed, and nothing of it can
      be taken for a part of the address. */
  lemma {:induction false} DecodeUndoesPercent(text: string)
    requires IsBytes(text)
    ensures PercentDecoded(PercentEncoded(text)) == text
    ensures forall c <- PercentEncoded(text) :: IsUnreserved(c) || c == '%'
  {
    if text != [] {
      var (c, rest) := (text[0], PercentEncoded(text[1..]));
      assert c in text;
      DecodeUndoesPercent(text[1..]);
      if IsUnreserved(c) {
        assert ([c] + rest)[1..] == rest;
      } else {
        HexRoundTrip(c as int / 16);
        HexRoundTrip(c as int % 16);
        var whole := ['%', HexOf(c as int / 16), HexOf(c as int % 16)] + rest;
        assert whole[3..] == rest;
      }
    }
  }

  // --- Engines --------------------------------------------------------------------------------

  /** Where the token is in a template, or -1. */
  function TermsAt(query: string): (at: int)
    ensures at >= -1
    ensures at >= 0 ==> at + |TERMS| <= |query| && query[at..at + |TERMS|] == TERMS
  {
    if StartsWith(query, TERMS) then 0
    else if query == [] then -1
    else
      var rest := TermsAt(query[1..]);
      assert rest >= 0 ==> query[1..][rest..rest + |TERMS|] == query[rest + 1..rest + 1 + |TERMS|];
      if rest < 0 then -1 else rest + 1
  }

  predicate IsUsable(engine: Engine) {
    engine.name != [] && TermsAt(engine.query) >= 0
  }

  lemma {:induction false} TermsFound(front: string, back: string)
    ensures TermsAt(front + TERMS + back) >= 0
  {
    var query := front + TERMS + back;
    if front == [] {
      assert query[..|TERMS|] == TERMS;
    } else {
      TermsFound(front[1..], back);
      assert query[1..] == front[1..] + TERMS + back;
    }
  }

  function SearchUrl(values: Values, phrase: string): string
    requires IsBytes(phrase)
  {
    if values.engines == [] then []
    else
      var index := if 0 <= values.chosen < |values.engines| then values.chosen else 0;
      var query := values.engines[index].query;
      var at := TermsAt(query);
      if at < 0 then [] else query[..at] + PercentEncoded(phrase) + query[at + |TERMS|..]
  }

  // --- Edits ----------------------------------------------------------------------------------

  datatype Edit =
    | SetHome(text: string)
    | SetNewTab(on: bool)
    | SetZoom(percent: int)
    | SetJavaScript(on: bool)
    | SetImages(on: bool)
    | SetPopups(on: bool)
    | SetDoNotTrack(on: bool)
    | SetDownloads(text: string)
    | ChooseEngine(index: int)
    | AddEngine(name: string, query: string)
    | UpdateEngine(index: int, name: string, query: string)
    | RemoveEngine(index: int)

  predicate InRange(values: Values, index: int) {
    0 <= index < |values.engines|
  }

  function Clamped(percent: int): int {
    if percent < MINIMUM_ZOOM then MINIMUM_ZOOM else if percent > MAXIMUM_ZOOM then MAXIMUM_ZOOM else percent
  }

  /** A directory without the separators at its end, but for those of a drive. */
  function WithoutSeparator(path: string): string {
    if |path| > 3 && (path[|path| - 1] == '\\' || path[|path| - 1] == '/') then WithoutSeparator(path[..|path| - 1])
    else path
  }

  function EngineOf(name: string, query: string): Engine {
    Engine(OneLine(name), OneLine(query))
  }

  function Added(values: Values, name: string, query: string): Values {
    var engine := EngineOf(name, query);
    if IsUsable(engine) then values.(engines := values.engines + [engine]) else values
  }

  function Updated(values: Values, index: int, name: string, query: string): Values {
    var engine := EngineOf(name, query);
    if IsUsable(engine) && InRange(values, index) then values.(engines := values.engines[index := engine]) else values
  }

  /** The last engine stays, and the choice follows the engine it was made for. */
  function Removed(values: Values, index: int): Values {
    if !InRange(values, index) || |values.engines| <= 1 then values
    else
      values.(engines := values.engines[..index] + values.engines[index + 1..],
              chosen := if values.chosen == index then 0
                        else if values.chosen > index then values.chosen - 1 else values.chosen)
  }

  function Edited(values: Values, edit: Edit): Values {
    match edit
    case SetHome(text) => values.(home := if OneLine(text) == [] then DEFAULT_HOME else OneLine(text))
    case SetNewTab(on) => values.(newTab := on)
    case SetZoom(percent) => values.(zoom := Clamped(percent))
    case SetJavaScript(on) => values.(javaScript := on)
    case SetImages(on) => values.(images := on)
    case SetPopups(on) => values.(popups := on)
    case SetDoNotTrack(on) => values.(doNotTrack := on)
    case SetDownloads(text) => values.(downloads := WithoutSeparator(OneLine(text)))
    case ChooseEngine(index) => if InRange(values, index) then values.(chosen := index) else values
    case AddEngine(name, query) => Added(values, name, query)
    case UpdateEngine(index, name, query) => Updated(values, index, name, query)
    case RemoveEngine(index) => Removed(values, index)
  }

  function Run(values: Values, edits: seq<Edit>): Values {
    if edits == [] then values else Edited(Run(values, edits[..|edits| - 1]), edits[|edits| - 1])
  }

  // --- Invariants -------------------------------------------------------------------------------

  /** There is an engine to answer a phrase with, and a choice among them. */
  ghost predicate IsSound(values: Values) {
    && InRange(values, values.chosen)
    && (forall e <- values.engines :: IsUsable(e))
    && MINIMUM_ZOOM <= values.zoom <= MAXIMUM_ZOOM
  }

  /** Nothing a line of the file could not hold. */
  ghost predicate IsLine(text: string) {
    '\n' !in text && (text != [] ==> text[|text| - 1] != '\r')
  }

  ghost predicate IsTidyEngine(engine: Engine) {
    IsUsable(engine) && IsLine(engine.name) && '\t' !in engine.name && IsLine(engine.query)
  }

  ghost predicate IsTidy(values: Values) {
    && IsSound(values) && values.home != [] && IsLine(values.home) && IsLine(values.downloads)
    && (forall e <- values.engines :: IsTidyEngine(e))
  }

  lemma TidyFrom(name: string, front: string)
    requires name != [] && '\t' !in name && '\n' !in name && '\r' !in name && '\n' !in front
    ensures IsTidyEngine(Engine(name, front + TERMS))
  {
    TermsFound(front, "");
    assert front + TERMS + "" == front + TERMS;
    EndsInTerms(front);
  }

  lemma EndsInTerms(front: string)
    requires '\n' !in front
    ensures IsLine(front + TERMS)
  {
    assert '\n' !in TERMS && TERMS[|TERMS| - 1] == '}';
  }

  lemma GoogleIsTidy()
    ensures IsTidyEngine(GOOGLE)
  {
    TidyFrom("Google", "https://www.google.com/search?q=");
  }

  lemma DuckDuckGoIsTidy()
    ensures IsTidyEngine(DUCK_DUCK_GO)
  {
    TidyFrom("DuckDuckGo", "https://duckduckgo.com/?q=");
  }

  lemma BingIsTidy()
    ensures IsTidyEngine(BING)
  {
    TidyFrom("Bing", "https://www.bing.com/search?q=");
  }

  lemma WikipediaIsTidy()
    ensures IsTidyEngine(WIKIPEDIA)
  {
    TidyFrom("Wikipedia", "https://en.wikipedia.org/w/index.php?search=");
  }

  lemma DefaultsAreTidy()
    ensures IsTidy(DEFAULTS)
  {
    GoogleIsTidy();
    DuckDuckGoIsTidy();
    BingIsTidy();
    WikipediaIsTidy();
    DefaultHomeIsLine();
    FourAreTidy(DEFAULTS, GOOGLE, DUCK_DUCK_GO, BING, WIKIPEDIA);
  }

  lemma DefaultHomeIsLine()
    ensures IsLine(DEFAULT_HOME) && DEFAULT_HOME != []
  {
    assert '\n' !in DEFAULT_HOME;
  }

  lemma FourAreTidy(values: Values, a: Engine, b: Engine, c: Engine, d: Engine)
    requires values.engines == [a, b, c, d] && 0 <= values.chosen < 4 && MINIMUM_ZOOM <= values.zoom <= MAXIMUM_ZOOM
    requires IsTidyEngine(a) && IsTidyEngine(b) && IsTidyEngine(c) && IsTidyEngine(d)
    requires IsLine(values.home) && values.home != [] && IsLine(values.downloads)
    ensures IsTidy(values)
  {
  }

  lemma {:induction false} WithoutSeparatorIs(path: string)
    ensures WithoutSeparator(path) <= path
  {
    if |path| > 3 && (path[|path| - 1] == '\\' || path[|path| - 1] == '/') {
      WithoutSeparatorIs(path[..|path| - 1]);
    }
  }

  lemma OneLineIsLine(text: string)
    ensures IsLine(OneLine(text)) && '\t' !in OneLine(text)
    ensures IsLine(WithoutSeparator(OneLine(text)))
  {
    OneLineIs(text);
    WithoutSeparatorIs(OneLine(text));
    var (line, path) := (OneLine(text), WithoutSeparator(OneLine(text)));
    assert forall i :: 0 <= i < |path| ==> path[i] == line[i] && line[i] in line;
  }

  lemma EnginesKeepSound(values: Values, edit: Edit)
    requires IsSound(values)
    ensures IsSound(Edited(values, edit))
  {
  }

  lemma EngineKeepsTidy(values: Values, edit: Edit)
    requires IsTidy(values) && (edit.AddEngine? || edit.UpdateEngine?)
    ensures IsTidy(Edited(values, edit))
  {
    OneLineIsLine(edit.name);
    OneLineIsLine(edit.query);
  }

  lemma RemovalKeepsTidy(values: Values, index: int)
    requires IsTidy(values)
    ensures IsTidy(Removed(values, index))
  {
    EnginesKeepSound(values, RemoveEngine(index));
    assert forall e <- Removed(values, index).engines :: e in values.engines;
  }

  lemma TextKeepsTidy(values: Values, edit: Edit)
    requires IsTidy(values) && (edit.SetHome? || edit.SetDownloads?)
    ensures IsTidy(Edited(values, edit))
  {
    OneLineIsLine(edit.text);
    DefaultHomeIsLine();
  }

  /** An edit of neither an engine nor a text leaves every line as it was. */
  lemma OtherKeepsTidy(values: Values, after: Values)
    requires IsTidy(values) && IsSound(after)
    requires after.engines == values.engines && after.home == values.home && after.downloads == values.downloads
    ensures IsTidy(after)
  {
  }

  lemma EditKeepsTidy(values: Values, edit: Edit)
    requires IsTidy(values)
    ensures IsTidy(Edited(values, edit))
  {
    EnginesKeepSound(values, edit);
    match edit
    case SetHome(_) => TextKeepsTidy(values, edit);
    case SetDownloads(_) => TextKeepsTidy(values, edit);
    case AddEngine(_, _) => EngineKeepsTidy(values, edit);
    case UpdateEngine(_, _, _) => EngineKeepsTidy(values, edit);
    case RemoveEngine(index) => RemovalKeepsTidy(values, index);
    case _ => OtherKeepsTidy(values, Edited(values, edit));
  }

  /** Whatever is edited, there is always a usable engine, and the choice is one of them. */
  lemma {:induction false} EveryRunIsSound(values: Values, edits: seq<Edit>)
    requires IsSound(values)
    ensures IsSound(Run(values, edits))
    ensures IsTidy(values) ==> IsTidy(Run(values, edits))
  {
    if edits != [] {
      EveryRunIsSound(values, edits[..|edits| - 1]);
      EnginesKeepSound(Run(values, edits[..|edits| - 1]), edits[|edits| - 1]);
      if IsTidy(values) {
        EditKeepsTidy(Run(values, edits[..|edits| - 1]), edits[|edits| - 1]);
      }
    }
  }

  /** Unless it is the engine edited or removed, the chosen engine stays the same one. */
  lemma ChoiceFollowsEngine(values: Values, edit: Edit)
    requires IsSound(values) && !edit.ChooseEngine?
    requires (edit.UpdateEngine? || edit.RemoveEngine?) ==> edit.index != values.chosen
    ensures var after := Edited(values, edit);
            InRange(after, after.chosen) && after.engines[after.chosen] == values.engines[values.chosen]
  {
  }

  /** A sound choice of engine always makes an address, around the phrase as a server
      reads it. */
  lemma SearchAlwaysAnswers(values: Values, phrase: string)
    requires IsSound(values) && IsBytes(phrase)
    ensures var query := values.engines[values.chosen].query;
            exists front, back, middle ::
              && query == front + TERMS + back
              && SearchUrl(values, phrase) == front + middle + back
              && PercentDecoded(middle) == phrase
  {
    var query := values.engines[values.chosen].query;
    var at := TermsAt(query);
    assert values.engines[values.chosen] in values.engines;
    var (front, back, middle) := (query[..at], query[at + |TERMS|..], PercentEncoded(phrase));
    DecodeUndoesPercent(phrase);
    assert query == front + query[at..at + |TERMS|] + back;
    assert SearchUrl(values, phrase) == front + middle + back;
  }
}
