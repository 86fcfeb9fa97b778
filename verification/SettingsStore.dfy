/** The settings' own code: the edits a person makes, and the loops that write and read
    the file. */
module SettingsStore {
  import opened Sequences
  import opened Text
  import opened Settings
  import opened SettingsFile
  import SettingsSaves

  class Store {
    var values: Values
    var error: bool
    var dirty: bool
    var revision: nat

    constructor ()
      ensures values == DEFAULTS && !error && !dirty && revision == 0
    {
      values, error, dirty, revision := DEFAULTS, false, false, 0;
    }

    /** Every edit that is not refused marks the settings, even one that changes nothing. */
    method Changed()
      modifies this`dirty, this`revision
      ensures dirty && revision == old(revision) + 1
    {
      dirty, revision := true, revision + 1;
    }

    ghost predicate Marked(edit: Edit, was: bool, before: nat)
      reads this
    {
      dirty == (was || SettingsSaves.Marks(edit)) && revision == before + if SettingsSaves.Marks(edit) then 1 else 0
    }

    method SetHome(text: string)
      modifies this
      ensures values == Edited(old(values), Edit.SetHome(text)) && error == old(error)
      ensures Marked(Edit.SetHome(text), old(dirty), old(revision))
    {
      var wanted := StripToLine(text);
      values := values.(home := if wanted == [] then DEFAULT_HOME else wanted);
      Changed();
    }

    method SetDownloads(text: string)
      modifies this
      ensures values == Edited(old(values), Edit.SetDownloads(text)) && error == old(error)
      ensures Marked(Edit.SetDownloads(text), old(dirty), old(revision))
    {
      var wanted := StripToLine(text);
      while |wanted| > 3 && (wanted[|wanted| - 1] == '\\' || wanted[|wanted| - 1] == '/')
        invariant WithoutSeparator(wanted) == WithoutSeparator(OneLine(text))
      {
        wanted := wanted[..|wanted| - 1];
      }
      values := values.(downloads := wanted);
      Changed();
    }

    method SetEngineDefault(index: int)
      modifies this
      ensures values == Edited(old(values), ChooseEngine(index)) && error == old(error)
      ensures Marked(ChooseEngine(index), old(dirty), old(revision))
    {
      Changed();
      if index < 0 || index >= |values.engines| {
        return;
      }
      values := values.(chosen := index);
    }

    method AddEngine(name: string, query: string) returns (added: int)
      modifies this
      ensures values == Edited(old(values), Edit.AddEngine(name, query))
      ensures added == (if IsUsable(EngineOf(name, query)) then |old(values).engines| else -1)
      ensures error == (old(error) || added < 0) && Marked(Edit.AddEngine(name, query), old(dirty), old(revision))
    {
      var wantedName := StripToLine(name);
      var wantedQuery := StripToLine(query);
      if wantedName == [] || TermsAt(wantedQuery) < 0 {
        error := true;
        return -1;
      }
      values := values.(engines := values.engines + [Engine(wantedName, wantedQuery)]);
      added := |values.engines| - 1;
      Changed();
    }

    method UpdateEngine(index: int, name: string, query: string)
      modifies this
      ensures values == Edited(old(values), Edit.UpdateEngine(index, name, query))
      ensures error == (old(error) || !IsUsable(EngineOf(name, query)))
      ensures Marked(Edit.UpdateEngine(index, name, query), old(dirty), old(revision))
    {
      var wantedName := StripToLine(name);
      var wantedQuery := StripToLine(query);
      if wantedName == [] || TermsAt(wantedQuery) < 0 {
        error := true;
        return;
      }
      Changed();
      if index < 0 || index >= |values.engines| {
        return;
      }
      values := values.(engines := values.engines[index := Engine(wantedName, wantedQuery)]);
    }

    method RemoveEngine(index: int)
      modifies this
      ensures values == Edited(old(values), Edit.RemoveEngine(index)) && error == old(error)
      ensures Marked(Edit.RemoveEngine(index), old(dirty), old(revision))
    {
      Changed();
      if index < 0 || index >= |values.engines| || |values.engines| <= 1 {
        return;
      }
      values := values.(engines := values.engines[..index] + values.engines[index + 1..]);
      if values.chosen == index {
        values := values.(chosen := 0);
      } else if values.chosen > index {
        values := values.(chosen := values.chosen - 1);
      }
    }

    /** Takes what a file holds, or leaves the settings alone when it is not this build's. */
    method LoadSettings(contents: string)
      modifies this`values, this`error
      ensures values == match Load(contents) case Untouched => old(values) case Read(read) => read
      ensures error == (old(error) || (contents != [] && Load(contents).Untouched?))
    {
      if contents == [] {
        return;
      }
      var lines := SplitLines(contents);
      if lines == [] || lines[0] != HEADER {
        error := true;
        return;
      }
      var reading := ReadLines(lines[1..]);
      values := Settle(reading, DEFAULT_ENGINES);
    }

    /** Writes beside the file and puts that in its place, so the file is the old one or
        the new one; the mark is gone either way. */
    method Flush(disk: string, named: bool, replaced: bool) returns (now: string)
      modifies this`dirty, this`error
      ensures SettingsSaves.State(values, dirty, now) ==
          SettingsSaves.Next(SettingsSaves.State(values, old(dirty), disk), SettingsSaves.Saves(named && replaced))
      ensures error == (old(error) || (old(dirty) && named && !replaced))
    {
      if !dirty {
        return disk;
      }
      dirty := false;
      if !named {
        return disk;
      }
      var body := WriteBody(values);
      var contents := HEADER + "\n" + body;
      if !replaced {
        error := true;
        return disk;
      }
      now := contents;
    }
  }

  // --- Text ---------------------------------------------------------------------------------

  method StripToLine(text: string) returns (line: string)
    ensures line == OneLine(text)
  {
    var clean := DropBreaks(text);
    line := Trim(clean);
  }

  method DropBreaks(text: string) returns (clean: string)
    ensures clean == Unbroken(text)
  {
    clean := [];
    ghost var rest := text;
    for i := 0 to |text|
      invariant rest == text[i..] && clean + Unbroken(rest) == Unbroken(text)
    {
      assert rest == [text[i]] + rest[1..];
      rest := rest[1..];
      clean := AppendUnbroken(clean, text[i], rest);
    }
    assert clean + [] == clean;
  }

  method AppendUnbroken(clean: string, c: char, ghost later: string) returns (more: string)
    ensures more + Unbroken(later) == clean + Unbroken([c] + later)
  {
    assert ([c] + later)[1..] == later;
    if c == '\r' || c == '\n' || c == '\t' {
      return clean;
    }
    Shift(clean, c, Unbroken(later));
    more := clean + [c];
  }

  method Trim(clean: string) returns (line: string)
    ensures line == RightTrimmed(LeftTrimmed(clean))
  {
    var first := 0;
    assert clean[0..] == clean;
    while first < |clean| && clean[first] == ' '
      invariant first <= |clean| && LeftTrimmed(clean[first..]) == LeftTrimmed(clean)
    {
      assert clean[first..][0] == ' ' && clean[first..][1..] == clean[first + 1..];
      first := first + 1;
    }
    if first == |clean| {
      return [];
    }
    ghost var left := clean[first..];
    assert left[0] == clean[first] && LeftTrimmed(left) == left;
    var last := |clean| - 1;
    assert left[..last - first + 1] == left;
    while clean[last] == ' '
      invariant first <= last < |clean|
      invariant RightTrimmed(left[..last - first + 1]) == RightTrimmed(left)
      decreases last
    {
      assert left[..last - first + 1][..last - first] == left[..last - first];
      last := last - 1;
    }
    line := clean[first..last + 1];
    assert line == left[..last - first + 1];
  }

  method PercentEncode(text: string) returns (encoded: string)
    requires IsBytes(text)
    ensures encoded == PercentEncoded(text)
  {
    encoded := [];
    ghost var rest := text;
    for i := 0 to |text|
      invariant rest == text[i..] && encoded + PercentEncoded(rest) == PercentEncoded(text)
    {
      assert rest[0] == text[i];
      encoded := AppendByte(encoded, text[i], PercentEncoded(rest[1..]));
      rest := rest[1..];
    }
    assert encoded + [] == encoded;
  }

  method AppendByte(encoded: string, c: char, ghost later: string) returns (more: string)
    requires c as int < 256
    ensures more + later == encoded + (PercentByte(c) + later)
  {
    if IsUnreserved(c) {
      return encoded + [c];
    }
    more := encoded + ['%', HexOf(c as int / 16), HexOf(c as int % 16)];
  }

  // --- Reading ------------------------------------------------------------------------------

  method SplitLines(contents: string) returns (lines: seq<string>)
    ensures lines == Lines(contents, [])
  {
    lines := [];
    var start := 0;
    ghost var rest := Lines(contents, []);
    assert contents[0..] == contents;
    while start <= |contents|
      invariant 0 <= start <= |contents| + 1 && lines + rest == Lines(contents, [])
      invariant rest == if start <= |contents| then Lines(contents[start..], []) else []
    {
      var line, next := TakeLine(contents, start);
      ghost var later := rest[1..];
      Shift(lines, line, later);
      start := next;
      lines := lines + [line];
      rest := later;
    }
  }

  method TakeLine(contents: string, start: nat) returns (line: string, next: nat)
    requires start <= |contents|
    ensures start < next <= |contents| + 1
    ensures Lines(contents[start..], []) == [line] + if next <= |contents| then Lines(contents[next..], []) else []
  {
    var end := FindFeed(contents, start);
    line := contents[start..end];
    LineUpTo(contents[start..], line, []);
    assert end < |contents| ==> contents[start..][|line| + 1..] == contents[end + 1..];
    assert [] + line == line;
    next := end + 1;
    if line != [] && line[|line| - 1] == '\r' {
      line := line[..|line| - 1];
    }
  }

  method FindFeed(contents: string, start: nat) returns (end: nat)
    requires start <= |contents|
    ensures start <= end <= |contents| && (end < |contents| ==> contents[end] == '\n')
    ensures '\n' !in contents[start..end]
  {
    end := start;
    while end < |contents| && contents[end] != '\n'
      invariant start <= end <= |contents| && '\n' !in contents[start..end]
    {
      assert contents[start..end + 1] == contents[start..end] + [contents[end]];
      end := end + 1;
    }
  }

  lemma {:induction false} LineUpTo(rest: string, line: string, current: string)
    requires line <= rest && '\n' !in line && (|line| < |rest| ==> rest[|line|] == '\n')
    ensures |line| < |rest| ==>
              Lines(rest, current) == [WithoutReturn(current + line)] + Lines(rest[|line| + 1..], [])
    ensures |line| == |rest| ==> Lines(rest, current) == [WithoutReturn(current + line)]
  {
    if line == [] {
      assert current + line == current;
    } else {
      assert rest[0] == line[0];
      LineUpTo(rest[1..], line[1..], current + [line[0]]);
      assert current + [line[0]] + line[1..] == current + line;
      assert |line| < |rest| ==> rest[1..][|line[1..]| + 1..] == rest[|line| + 1..];
    }
  }

  method SplitLine(line: string) returns (key: string, value: string)
    ensures key == KeyOf(line) && value == ValueOf(line)
  {
    var tab := 0;
    ghost var front, rest := [], line;
    while tab < |line| && line[tab] != '\t'
      invariant tab <= |line| && rest == line[tab..] && front == line[..tab]
      invariant front + KeyOf(rest) == KeyOf(line) && ValueOf(rest) == ValueOf(line)
    {
      assert rest[0] == line[tab];
      Shift(front, line[tab], KeyOf(rest[1..]));
      front, rest := front + [line[tab]], rest[1..];
      tab := tab + 1;
    }
    assert front + [] == front;
    if tab == |line| {
      return line, [];
    }
    assert rest[0] == '\t' && rest[1..] == line[tab + 1..];
    return line[..tab], line[tab + 1..];
  }

  method ReadLines(lines: seq<string>) returns (reading: Reading)
    ensures reading == TakenLines(EMPTY, lines)
  {
    reading := EMPTY;
    assert lines[0..] == lines;
    for i := 0 to |lines|
      invariant TakenLines(reading, lines[i..]) == TakenLines(EMPTY, lines)
    {
      assert lines[i..] == [lines[i]] + lines[i + 1..];
      TakesOne(reading, lines[i], lines[i + 1..]);
      if lines[i] == [] {
        continue;
      }
      var key, value := SplitLine(lines[i]);
      reading := Taken(reading, Recognised(key), value);
    }
    assert lines[|lines|..] == [];
  }

  method ChooseDefaultEngine(engines: seq<Engine>, name: string) returns (found: bool, at: nat)
    ensures at == FirstNamed(engines, name) && (found <==> at < |engines|)
  {
    assert engines[0..] == engines;
    for index := 0 to |engines|
      invariant FirstNamed(engines, name) == index + FirstNamed(engines[index..], name)
    {
      assert engines[index..][0] == engines[index] && engines[index..][1..] == engines[index + 1..];
      if engines[index].name == name {
        return true, index;
      }
    }
    return false, |engines|;
  }

  method Settle(reading: Reading, defaults: seq<Engine>) returns (values: Values)
    ensures values == SettledOver(reading, defaults)
  {
    var zoomed := reading.values;
    if zoomed.zoom < MINIMUM_ZOOM || zoomed.zoom > MAXIMUM_ZOOM {
      zoomed := zoomed.(zoom := DEFAULT_ZOOM);
    }
    assert zoomed == ZoomHeld(reading.values);
    var equipped := if zoomed.engines == [] then zoomed.(engines := defaults) else zoomed;
    assert equipped == EnginesHeld(ZoomHeld(reading.values), defaults);
    values := Choose(equipped, reading.name);
  }

  method Choose(loaded: Values, name: string) returns (values: Values)
    ensures values == ChoiceHeld(loaded, name)
  {
    values := loaded;
    var found, at := ChooseDefaultEngine(values.engines, name);
    if found {
      values := values.(chosen := at);
    }
    if values.chosen < 0 || values.chosen >= |values.engines| {
      values := values.(chosen := 0);
    }
  }

  // --- Writing ------------------------------------------------------------------------------

  method WriteBody(values: Values) returns (contents: string)
    ensures contents == Ended(AllLines(values))
  {
    var plain := WritePlain(values);
    var engines := WriteEngines(values.engines);
    var choice := "";
    if 0 <= values.chosen < |values.engines| {
      choice := AppendLine("", DefaultEngine, values.engines[values.chosen].name, []);
    }
    contents := plain + (engines + choice);
    EndedConcat(EngineLines(values.engines), ChoiceLines(values));
    EndedConcat(PlainLines(values), EngineLines(values.engines) + ChoiceLines(values));
  }

  method AppendLine(contents: string, key: Key, value: string, ghost so: seq<string>) returns (more: string)
    requires contents == Ended(so)
    ensures more == Ended(so + [Line(key, value)])
  {
    EndedAppends(so, Line(key, value));
    more := contents + (Spelled(key) + "\t" + value) + "\n";
  }

  method WritePlain(values: Values) returns (contents: string)
    ensures contents == Ended(PlainLines(values))
  {
    ghost var lines := PlainLines(values);
    EightOneByOne(lines);
    contents := AppendLine("", Home, values.home, []);
    contents := AppendLine(contents, Startup, if values.newTab then "new-tab" else "restore-session", lines[..1]);
    contents := AppendLine(contents, Zoom, ToString(values.zoom), lines[..2]);
    contents := AppendLine(contents, JavaScript, Truth(values.javaScript), lines[..3]);
    contents := AppendLine(contents, Images, Truth(values.images), lines[..4]);
    contents := AppendLine(contents, Popups, Truth(values.popups), lines[..5]);
    contents := AppendLine(contents, DoNotTrack, Truth(values.doNotTrack), lines[..6]);
    contents := AppendLine(contents, Downloads, values.downloads, lines[..7]);
  }

  lemma EightOneByOne(lines: seq<string>)
    requires |lines| == 8
    ensures lines[..1] == [] + [lines[0]] && lines[..2] == lines[..1] + [lines[1]] &&
        lines[..3] == lines[..2] + [lines[2]]
    ensures lines[..4] == lines[..3] + [lines[3]] && lines[..5] == lines[..4] + [lines[4]]
    ensures lines[..6] == lines[..5] + [lines[5]] && lines[..7] == lines[..6] + [lines[6]] &&
        lines == lines[..7] + [lines[7]]
  {
  }

  method WriteEngines(engines: seq<Engine>) returns (contents: string)
    ensures contents == Ended(EngineLines(engines))
  {
    contents := [];
    assert engines[0..] == engines;
    for i := 0 to |engines|
      invariant contents + Ended(EngineLines(engines[i..])) == Ended(EngineLines(engines))
    {
      assert engines[i..] == [engines[i]] + engines[i + 1..];
      contents := WriteEngine(contents, engines[i], engines[i + 1..]);
    }
    assert engines[|engines|..] == [];
  }

  method WriteEngine(contents: string, engine: Engine, ghost rest: seq<Engine>) returns (more: string)
    ensures more + Ended(EngineLines(rest)) == contents + Ended(EngineLines([engine] + rest))
  {
    ghost var all := [engine] + rest;
    assert all[1..] == rest;
    var line := "engine" + "\t" + (engine.name + "\t" + engine.query);
    assert EngineLines(all)[0] == line && EngineLines(all)[1..] == EngineLines(rest);
    more := contents + (line + "\n");
  }
}
