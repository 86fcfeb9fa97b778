/** The settings file: a key and a value on each line, and the reader that takes the
    lines it knows. */
module SettingsFile {
  import opened Text
  import opened Settings

  const HEADER := "harmony-settings 1"

  // --- Lines ------------------------------------------------------------------------------

  /** A file written on this platform ends its lines with two characters. */
  function WithoutReturn(line: string): string {
    if line != [] && line[|line| - 1] == '\r' then line[..|line| - 1] else line
  }

  function Lines(contents: string, current: string): seq<string> {
    if contents == [] then [WithoutReturn(current)]
    else if contents[0] == '\n' then [WithoutReturn(current)] + Lines(contents[1..], [])
    else Lines(contents[1..], current + [contents[0]])
  }

  function KeyOf(line: string): string {
    if line == [] || line[0] == '\t' then [] else [line[0]] + KeyOf(line[1..])
  }

  function ValueOf(line: string): string {
    if line == [] then [] else if line[0] == '\t' then line[1..] else ValueOf(line[1..])
  }

  // --- Reading ------------------------------------------------------------------------------

  datatype Key =
    | Home | Startup | Zoom | JavaScript | Images | Popups | DoNotTrack | Downloads | EngineLine | DefaultEngine
    | Unknown

  function Spelled(key: Key): string {
    match key
    case Home => "home"
    case Startup => "startup"
    case Zoom => "zoom"
    case JavaScript => "javascript"
    case Images => "images"
    case Popups => "popups"
    case DoNotTrack => "do-not-track"
    case Downloads => "downloads"
    case EngineLine => "engine"
    case DefaultEngine => "default-engine"
    case Unknown => ""
  }

  function Recognised(text: string): Key {
    if text == "home" then Home
    else if text == "startup" then Startup
    else if text == "zoom" then Zoom
    else if text == "javascript" then JavaScript
    else if text == "images" then Images
    else if text == "popups" then Popups
    else if text == "do-not-track" then DoNotTrack
    else if text == "downloads" then Downloads
    else if text == "engine" then EngineLine
    else if text == "default-engine" then DefaultEngine
    else Unknown
  }

  predicate IsSpace(c: char) {
    c == ' ' || '\t' <= c <= '\r'
  }

  /** A number after any spaces, as the C library reads one. */
  function Atoi(value: string): int {
    if value != [] && IsSpace(value[0]) then Atoi(value[1..]) else ParsedSigned(value)
  }

  /** What has been read so far, and the name of the engine chosen. */
  datatype Reading = Reading(values: Values, name: string)

  function WithEngine(values: Values, value: string): Values {
    if '\t' !in value then values
    else
      var engine := Engine(KeyOf(value), ValueOf(value));
      if IsUsable(engine) then values.(engines := values.engines + [engine]) else values
  }

  function Taken(reading: Reading, key: Key, value: string): Reading {
    var values := reading.values;
    match key
    case Home => reading.(values := values.(home := if value == [] then DEFAULT_HOME else value))
    case Startup => reading.(values := values.(newTab := value == "new-tab"))
    case Zoom => reading.(values := values.(zoom := Atoi(value)))
    case JavaScript => reading.(values := values.(javaScript := value == "on"))
    case Images => reading.(values := values.(images := value == "on"))
    case Popups => reading.(values := values.(popups := value == "on"))
    case DoNotTrack => reading.(values := values.(doNotTrack := value == "on"))
    case Downloads => reading.(values := values.(downloads := value))
    case EngineLine => reading.(values := WithEngine(values, value))
    case DefaultEngine => reading.(name := value)
    case Unknown => reading
  }

  function TakenLine(reading: Reading, line: string): Reading {
    if line == [] then reading else Taken(reading, Recognised(KeyOf(line)), ValueOf(line))
  }

  function Folded(step: (Reading, string) -> Reading, reading: Reading, lines: seq<string>): Reading
    decreases |lines|
  {
    if lines == [] then reading else Folded(step, step(reading, lines[0]), lines[1..])
  }

  function TakenLines(reading: Reading, lines: seq<string>): Reading {
    Folded(TakenLine, reading, lines)
  }

  /** The first engine of a name, or the number of engines. */
  function FirstNamed(engines: seq<Engine>, name: string): (at: nat)
    ensures at <= |engines|
    ensures at < |engines| ==> engines[at].name == name
    ensures forall i :: 0 <= i < at ==> engines[i].name != name
  {
    if engines == [] || engines[0].name == name then 0 else 1 + FirstNamed(engines[1..], name)
  }

  function Settled(reading: Reading): Values {
    SettledOver(reading, DEFAULT_ENGINES)
  }

  function ZoomHeld(values: Values): Values {
    if values.zoom < MINIMUM_ZOOM || values.zoom > MAXIMUM_ZOOM then values.(zoom := DEFAULT_ZOOM) else values
  }

  /** A file that named no engine is given some. */
  function EnginesHeld(values: Values, defaults: seq<Engine>): Values {
    if values.engines == [] then values.(engines := defaults) else values
  }

  function ChoiceHeld(values: Values, name: string): Values {
    var chosen := FirstNamed(values.engines, name);
    if chosen < |values.engines| then values.(chosen := chosen)
    else if InRange(values, values.chosen) then values
    else values.(chosen := 0)
  }

  function SettledOver(reading: Reading, defaults: seq<Engine>): Values {
    ChoiceHeld(EnginesHeld(ZoomHeld(reading.values), defaults), reading.name)
  }

  datatype Outcome = Untouched | Read(values: Values)

  const EMPTY := Reading(DEFAULTS.(engines := []), "")

  /** A file with another header is left alone. */
  function Load(contents: string): Outcome {
    var lines := Lines(contents, []);
    if contents == [] || lines == [] || lines[0] != HEADER then Untouched
    else Read(Settled(TakenLines(EMPTY, lines[1..])))
  }

  // --- Writing ------------------------------------------------------------------------------

  function Line(key: Key, value: string): string {
    Spelled(key) + "\t" + value
  }

  function Truth(on: bool): string {
    if on then "on" else "off"
  }

  function StartupText(values: Values): string {
    if values.newTab then "new-tab" else "restore-session"
  }

  function PlainLines(values: Values): seq<string> {
    [Line(Home, values.home), Line(Startup, StartupText(values)),
     Line(Zoom, ToString(values.zoom)), Line(JavaScript, Truth(values.javaScript)), Line(Images, Truth(values.images)),
     Line(Popups, Truth(values.popups)), Line(DoNotTrack, Truth(values.doNotTrack)), Line(Downloads, values.downloads)]
  }

  function EngineValue(engine: Engine): string {
    engine.name + "\t" + engine.query
  }

  function EngineLines(engines: seq<Engine>): seq<string> {
    if engines == [] then [] else [Line(EngineLine, EngineValue(engines[0]))] + EngineLines(engines[1..])
  }

  function ChoiceLines(values: Values): seq<string> {
    if InRange(values, values.chosen) then [Line(DefaultEngine, values.engines[values.chosen].name)] else []
  }

  function AllLines(values: Values): seq<string> {
    PlainLines(values) + (EngineLines(values.engines) + ChoiceLines(values))
  }

  function Saved(values: Values): string {
    HEADER + "\n" + Ended(AllLines(values))
  }

  // --- Reading what was written -----------------------------------------------------------------

  lemma {:induction false} LineCuts(line: string, rest: string, current: string)
    requires '\n' !in line
    ensures Lines(line + ['\n'] + rest, current) == [WithoutReturn(current + line)] + Lines(rest, [])
  {
    if line == [] {
      assert (line + ['\n'] + rest)[1..] == rest;
      assert current + line == current;
    } else {
      LineCuts(line[1..], rest, current + [line[0]]);
      assert (line + ['\n'] + rest)[1..] == line[1..] + ['\n'] + rest;
      assert current + [line[0]] + line[1..] == current + line;
    }
  }

  lemma {:induction false} LinesUndoEnded(lines: seq<string>)
    requires forall line <- lines :: IsLine(line)
    ensures Lines(Ended(lines), []) == lines + [[]]
  {
    if lines != [] {
      assert lines[0] in lines;
      LinesUndoEnded(lines[1..]);
      LineCuts(lines[0], Ended(lines[1..]), []);
      assert [] + lines[0] == lines[0];
    }
  }

  lemma {:induction false} KeyCuts(key: string, value: string)
    requires '\t' !in key
    ensures KeyOf(key + "\t" + value) == key && ValueOf(key + "\t" + value) == value
  {
    var line := key + "\t" + value;
    if key == [] {
      assert line[1..] == value;
    } else {
      KeyCuts(key[1..], value);
      assert line[1..] == key[1..] + "\t" + value;
    }
  }

  lemma KeyIsRecognised(key: Key)
    ensures Recognised(Spelled(key)) == key
  {
  }

  lemma KeyIsLine(key: Key)
    ensures IsLine(Spelled(key)) && '\t' !in Spelled(key)
  {
  }

  lemma LineIsLine(key: Key, value: string)
    requires IsLine(value)
    ensures IsLine(Line(key, value))
  {
    KeyIsLine(key);
    var line := Line(key, value);
    assert line[|line| - 1] == if value == [] then '\t' else value[|value| - 1];
  }

  lemma TakesLine(reading: Reading, key: Key, value: string)
    requires IsLine(value)
    ensures TakenLine(reading, Line(key, value)) == Taken(reading, key, value)
    ensures IsLine(Line(key, value))
  {
    KeyIsRecognised(key);
    KeyIsLine(key);
    KeyCuts(Spelled(key), value);
    LineIsLine(key, value);
  }

  lemma {:induction false} FoldsConcat(step: (Reading, string) -> Reading, reading: Reading, front: seq<string>,
      back: seq<string>)
    ensures Folded(step, reading, front + back) == Folded(step, Folded(step, reading, front), back)
    decreases |front|
  {
    if front == [] {
      assert front + back == back;
    } else {
      FoldsConcat(step, step(reading, front[0]), front[1..], back);
      assert (front + back)[1..] == front[1..] + back;
    }
  }

  lemma TakesConcat(reading: Reading, front: seq<string>, back: seq<string>)
    ensures TakenLines(reading, front + back) == TakenLines(TakenLines(reading, front), back)
  {
    FoldsConcat(TakenLine, reading, front, back);
  }

  lemma TakesOne(reading: Reading, line: string, rest: seq<string>)
    ensures TakenLines(reading, [line] + rest) == TakenLines(TakenLine(reading, line), rest)
  {
    assert ([line] + rest)[1..] == rest;
  }

  lemma EngineTaken(reading: Reading, engine: Engine)
    requires IsTidyEngine(engine)
    ensures TakenLine(reading, Line(EngineLine, EngineValue(engine)))
         == reading.(values := reading.values.(engines := reading.values.engines + [engine]))
    ensures IsLine(Line(EngineLine, EngineValue(engine)))
  {
    var value := EngineValue(engine);
    KeyCuts(engine.name, engine.query);
    assert value[|engine.name|] == '\t';
    assert IsLine(value) by {
      assert value[|value| - 1] == if engine.query == [] then '\t' else engine.query[|engine.query| - 1];
    }
    TakesLine(reading, EngineLine, value);
  }

  function WithMore(reading: Reading, engines: seq<Engine>): Reading {
    reading.(values := reading.values.(engines := reading.values.engines + engines))
  }

  lemma FirstEngineTaken(reading: Reading, engine: Engine, rest: seq<Engine>)
    requires IsTidyEngine(engine)
    ensures TakenLines(reading, EngineLines([engine] + rest)) ==
        TakenLines(WithMore(reading, [engine]), EngineLines(rest))
    ensures IsLine(Line(EngineLine, EngineValue(engine)))
  {
    EngineTaken(reading, engine);
    assert ([engine] + rest)[1..] == rest;
    TakesOne(reading, Line(EngineLine, EngineValue(engine)), EngineLines(rest));
  }

  lemma {:induction false} EnginesTaken(reading: Reading, engines: seq<Engine>)
    requires forall e <- engines :: IsTidyEngine(e)
    ensures TakenLines(reading, EngineLines(engines)) == WithMore(reading, engines)
    decreases |engines|
  {
    if engines == [] {
      assert reading.values.engines + [] == reading.values.engines;
    } else {
      var (first, rest) := (engines[0], engines[1..]);
      assert first in engines && engines == [first] + rest;
      FirstEngineTaken(reading, first, rest);
      EnginesTaken(WithMore(reading, [first]), rest);
      MoreAndMore(reading, [first], rest);
    }
  }

  lemma MoreAndMore(reading: Reading, some: seq<Engine>, others: seq<Engine>)
    ensures WithMore(WithMore(reading, some), others) == WithMore(reading, some + others)
  {
    assert reading.values.engines + some + others == reading.values.engines + (some + others);
  }

  lemma {:induction false} EngineLinesAreLines(engines: seq<Engine>)
    requires forall e <- engines :: IsTidyEngine(e)
    ensures forall line <- EngineLines(engines) :: IsLine(line)
  {
    if engines != [] {
      assert engines[0] in engines;
      EngineTaken(EMPTY, engines[0]);
      EngineLinesAreLines(engines[1..]);
    }
  }

  lemma ZoomTaken(zoom: int)
    ensures Atoi(ToString(zoom)) == zoom && IsLine(ToString(zoom))
  {
    ParseUndoesToString(zoom);
    DigitsSpell(if zoom < 0 then -zoom else zoom, []);
    var digits := Decimal(if zoom < 0 then -zoom else zoom);
    assert digits[0] in digits;
    assert ToString(zoom)[|ToString(zoom)| - 1] in ToString(zoom);
  }

  /** Eight lines one after the other. */
  lemma TakesEight(reading: Reading, a: string, b: string, c: string, d: string, e: string, f: string, g: string,
      h: string)
    ensures TakenLines(reading, [a, b, c, d, e, f, g, h])
         == TakenLine(TakenLine(TakenLine(TakenLine(
              TakenLine(TakenLine(TakenLine(TakenLine(reading, a), b), c), d), e), f), g), h)
  {
    assert [a, b, c, d, e, f, g, h] == [a] + ([b] + ([c] + ([d] + ([e] + ([f] + ([g] + [h]))))));
    var rd := reading;
    TakesOne(rd, a, [b] + ([c] + ([d] + ([e] + ([f] + ([g] + [h]))))));
    rd := TakenLine(rd, a);
    TakesOne(rd, b, [c] + ([d] + ([e] + ([f] + ([g] + [h])))));
    rd := TakenLine(rd, b);
    TakesOne(rd, c, [d] + ([e] + ([f] + ([g] + [h]))));
    rd := TakenLine(rd, c);
    TakesOne(rd, d, [e] + ([f] + ([g] + [h])));
    rd := TakenLine(rd, d);
    TakesOne(rd, e, [f] + ([g] + [h]));
    rd := TakenLine(rd, e);
    TakesOne(rd, f, [g] + [h]);
    rd := TakenLine(rd, f);
    TakesOne(rd, g, [h]);
    rd := TakenLine(rd, g);
    TakesOne(rd, h, []);
    assert [h] + [] == [h];
  }

  lemma PlainAreLines(values: Values)
    requires IsTidy(values)
    ensures AllLinesAre(PlainLines(values))
  {
    TextLinesAre(values);
    TruthLinesAre(values);
    EightLinesAre(Line(Home, values.home), Line(Startup, StartupText(values)),
                  Line(Zoom, ToString(values.zoom)), Line(JavaScript, Truth(values.javaScript)),
                  Line(Images, Truth(values.images)), Line(Popups, Truth(values.popups)),
                  Line(DoNotTrack, Truth(values.doNotTrack)), Line(Downloads, values.downloads));
  }

  ghost predicate AllLinesAre(lines: seq<string>) {
    forall line <- lines :: IsLine(line)
  }

  lemma EightLinesAre(a: string, b: string, c: string, d: string, e: string, f: string, g: string, h: string)
    requires IsLine(a) && IsLine(b) && IsLine(c) && IsLine(d) && IsLine(e) && IsLine(f) && IsLine(g) && IsLine(h)
    ensures AllLinesAre([a, b, c, d, e, f, g, h])
  {
  }

  lemma TextLinesAre(values: Values)
    requires IsTidy(values)
    ensures IsLine(Line(Home, values.home)) && IsLine(Line(Zoom, ToString(values.zoom)))
    ensures IsLine(Line(Downloads, values.downloads))
    ensures IsLine(Line(Startup, StartupText(values)))
  {
    ZoomTaken(values.zoom);
    LineIsLine(Home, values.home);
    LineIsLine(Zoom, ToString(values.zoom));
    LineIsLine(Downloads, values.downloads);
    LineIsLine(Startup, StartupText(values));
  }

  lemma TruthLinesAre(values: Values)
    ensures IsLine(Line(JavaScript, Truth(values.javaScript))) && IsLine(Line(Images, Truth(values.images)))
    ensures IsLine(Line(Popups, Truth(values.popups))) && IsLine(Line(DoNotTrack, Truth(values.doNotTrack)))
  {
    LineIsLine(JavaScript, Truth(values.javaScript));
    LineIsLine(Images, Truth(values.images));
    LineIsLine(Popups, Truth(values.popups));
    LineIsLine(DoNotTrack, Truth(values.doNotTrack));
  }

  /** The plain lines, two by two, each taken on its own. */
  lemma HomeTaken(r0: Reading, values: Values) returns (r2: Reading)
    requires IsTidy(values)
    ensures r2 == TakenLine(TakenLine(r0, Line(Home, values.home)), Line(Startup, StartupText(values)))
    ensures r2 == r0.(values := r0.values.(home := values.home, newTab := values.newTab))
  {
    TakesLine(r0, Home, values.home);
    var r1 := r0.(values := r0.values.(home := values.home));
    TakesLine(r1, Startup, StartupText(values));
    assert (StartupText(values) == "new-tab") == values.newTab;
    r2 := r1.(values := r1.values.(newTab := values.newTab));
  }

  lemma ScaleTaken(r2: Reading, values: Values) returns (r4: Reading)
    requires IsTidy(values)
    ensures r4 == TakenLine(TakenLine(r2, Line(Zoom, ToString(values.zoom))),
        Line(JavaScript, Truth(values.javaScript)))
    ensures r4 == r2.(values := r2.values.(zoom := values.zoom, javaScript := values.javaScript))
  {
    ZoomTaken(values.zoom);
    TakesLine(r2, Zoom, ToString(values.zoom));
    var r3 := r2.(values := r2.values.(zoom := values.zoom));
    TakesLine(r3, JavaScript, Truth(values.javaScript));
    r4 := r3.(values := r3.values.(javaScript := values.javaScript));
  }

  lemma PagesTaken(r4: Reading, values: Values) returns (r6: Reading)
    requires IsTidy(values)
    ensures r6 == TakenLine(TakenLine(r4, Line(Images, Truth(values.images))), Line(Popups, Truth(values.popups)))
    ensures r6 == r4.(values := r4.values.(images := values.images, popups := values.popups))
  {
    TakesLine(r4, Images, Truth(values.images));
    var r5 := r4.(values := r4.values.(images := values.images));
    TakesLine(r5, Popups, Truth(values.popups));
    r6 := r5.(values := r5.values.(popups := values.popups));
  }

  lemma FolderTaken(r6: Reading, values: Values) returns (r8: Reading)
    requires IsTidy(values)
    ensures r8 == TakenLine(TakenLine(r6, Line(DoNotTrack, Truth(values.doNotTrack))),
        Line(Downloads, values.downloads))
    ensures r8 == r6.(values := r6.values.(doNotTrack := values.doNotTrack, downloads := values.downloads))
  {
    TakesLine(r6, DoNotTrack, Truth(values.doNotTrack));
    var r7 := r6.(values := r6.values.(doNotTrack := values.doNotTrack));
    TakesLine(r7, Downloads, values.downloads);
    r8 := r7.(values := r7.values.(downloads := values.downloads));
  }

  lemma PlainTaken(values: Values)
    requires IsTidy(values)
    ensures TakenLines(EMPTY, PlainLines(values)) == Reading(values.(engines := [], chosen := 0), "")
  {
    TakesEight(EMPTY, Line(Home, values.home), Line(Startup, StartupText(values)),
               Line(Zoom, ToString(values.zoom)), Line(JavaScript, Truth(values.javaScript)),
               Line(Images, Truth(values.images)), Line(Popups, Truth(values.popups)),
               Line(DoNotTrack, Truth(values.doNotTrack)), Line(Downloads, values.downloads));
    var r2 := HomeTaken(EMPTY, values);
    var r4 := ScaleTaken(r2, values);
    var r6 := PagesTaken(r4, values);
    var r8 := FolderTaken(r6, values);
  }

  lemma AllTaken(values: Values)
    requires IsTidy(values)
    ensures TakenLines(EMPTY, AllLines(values)) == Reading(values.(chosen := 0), values.engines[values.chosen].name)
  {
    var (engines, choice) := (EngineLines(values.engines), ChoiceLines(values));
    TakesConcat(EMPTY, PlainLines(values), engines + choice);
    PlainTaken(values);
    var plain := Reading(values.(engines := [], chosen := 0), "");
    TakesConcat(plain, engines, choice);
    EnginesTaken(plain, values.engines);
    assert [] + values.engines == values.engines;
    ChoiceTaken(Reading(values.(chosen := 0), ""), values.engines[values.chosen]);
  }

  lemma ChoiceTaken(reading: Reading, engine: Engine)
    requires IsTidyEngine(engine)
    ensures TakenLines(reading, [Line(DefaultEngine, engine.name)]) == reading.(name := engine.name)
    ensures IsLine(Line(DefaultEngine, engine.name))
  {
    TakesLine(reading, DefaultEngine, engine.name);
    TakesOne(reading, Line(DefaultEngine, engine.name), []);
    assert [Line(DefaultEngine, engine.name)] + [] == [Line(DefaultEngine, engine.name)];
  }

  lemma AllAreLines(values: Values)
    requires IsTidy(values)
    ensures forall line <- AllLines(values) :: IsLine(line)
  {
    PlainAreLines(values);
    EngineLinesAreLines(values.engines);
    ChoiceTaken(EMPTY, values.engines[values.chosen]);
  }

  /** A blank last line is passed over. */
  lemma HeadedLoads(header: string, lines: seq<string>)
    requires IsLine(header) && forall line <- lines :: IsLine(line)
    ensures Lines(header + "\n" + Ended(lines), []) == [header] + (lines + [[]])
  {
    var all := [header] + lines;
    assert all[1..] == lines;
    assert Ended(all) == header + "\n" + Ended(lines);
    LinesUndoEnded(all);
    assert all + [[]] == [header] + (lines + [[]]);
  }

  lemma LoadIs(contents: string, lines: seq<string>)
    requires contents != [] && Lines(contents, []) == [HEADER] + (lines + [[]])
    ensures Load(contents) == Read(Settled(TakenLines(EMPTY, lines)))
  {
    assert ([HEADER] + (lines + [[]]))[1..] == lines + [[]];
    TakesConcat(EMPTY, lines, [[]]);
    TakesOne(TakenLines(EMPTY, lines), [], []);
    var blank: seq<string> := [[]];
    assert blank + [] == blank;
  }

  lemma LoadGivesBack(values: Values)
    requires IsTidy(values)
    ensures Load(Saved(values)) ==
        Read(values.(chosen := FirstNamed(values.engines, values.engines[values.chosen].name)))
  {
    AllTaken(values);
    AllAreLines(values);
    HeaderIsLine();
    HeadedLoads(HEADER, AllLines(values));
    LoadIs(Saved(values), AllLines(values));
  }

  lemma HeaderIsLine()
    ensures IsLine(HEADER)
  {
    assert '\n' !in HEADER;
  }

  /** What is saved is loaded back, but the choice, which goes to the first engine of the
      chosen one's name: the same one exactly when no engine before it shares its name. */
  lemma LoadUndoesSave(values: Values)
    requires IsTidy(values)
    ensures var first := FirstNamed(values.engines, values.engines[values.chosen].name);
            && Load(Saved(values)) == Read(values.(chosen := first))
            && first <= values.chosen
            && (first == values.chosen <==>
                  forall i :: 0 <= i < values.chosen ==> values.engines[i].name != values.engines[values.chosen].name)
  {
    LoadGivesBack(values);
  }

  /** Two engines under one name, the second one chosen: the first one is, after a restart. */
  lemma NamesakeIsChosen()
    ensures var one, other := Engine("Wiki", "https://a.example/?q=" + TERMS),
        Engine("Wiki", "https://b.example/?q=" + TERMS);
            var values := DEFAULTS.(engines := [one, other], chosen := 1);
            IsTidy(values) && Load(Saved(values)) == Read(values.(chosen := 0))
  {
    var one, other := Engine("Wiki", "https://a.example/?q=" + TERMS), Engine("Wiki", "https://b.example/?q=" + TERMS);
    TidyFrom("Wiki", "https://a.example/?q=");
    TidyFrom("Wiki", "https://b.example/?q=");
    TwoAreTidy(one, other);
    LoadUndoesSave(DEFAULTS.(engines := [one, other], chosen := 1));
  }

  lemma TwoAreTidy(one: Engine, other: Engine)
    requires IsTidyEngine(one) && IsTidyEngine(other)
    ensures IsTidy(DEFAULTS.(engines := [one, other], chosen := 1))
  {
    DefaultHomeIsLine();
  }

  /** However the defaults were edited, the file gives the same settings back. */
  lemma EveryRunIsRemembered(edits: seq<Edit>)
    ensures var values := Run(DEFAULTS, edits);
            && IsTidy(values)
            && Load(Saved(values)) ==
                Read(values.(chosen := FirstNamed(values.engines, values.engines[values.chosen].name)))
  {
    DefaultsAreTidy();
    EveryRunIsSound(DEFAULTS, edits);
    LoadUndoesSave(Run(DEFAULTS, edits));
  }

  // --- Any file at all ------------------------------------------------------------------------

  ghost predicate AllUsable(values: Values) {
    forall e <- values.engines :: IsUsable(e)
  }

  lemma TakenIsUsable(reading: Reading, key: Key, value: string)
    requires AllUsable(reading.values)
    ensures AllUsable(Taken(reading, key, value).values)
  {
  }

  lemma {:induction false} TakenAreUsable(reading: Reading, lines: seq<string>)
    requires AllUsable(reading.values)
    ensures AllUsable(TakenLines(reading, lines).values)
    decreases |lines|
  {
    if lines != [] {
      TakenIsUsable(reading, Recognised(KeyOf(lines[0])), ValueOf(lines[0]));
      TakesOne(reading, lines[0], lines[1..]);
      assert lines == [lines[0]] + lines[1..];
      TakenAreUsable(TakenLine(reading, lines[0]), lines[1..]);
    }
  }

  /** Whatever a file holds, what is loaded from it can answer a phrase. */
  lemma AnyFileIsSound(contents: string)
    requires Load(contents).Read?
    ensures IsSound(Load(contents).values)
  {
    var lines := Lines(contents, []);
    TakenAreUsable(EMPTY, lines[1..]);
    DefaultsAreTidy();
    SettledIsSound(TakenLines(EMPTY, lines[1..]));
  }

  lemma SettledIsSound(reading: Reading)
    requires AllUsable(reading.values) && IsTidy(DEFAULTS)
    ensures IsSound(Settled(reading))
  {
    assert DEFAULTS.engines == DEFAULT_ENGINES;
  }
}
