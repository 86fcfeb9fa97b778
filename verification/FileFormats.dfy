/** The files as they are spelled: a sample of each, character by character. */
module FileFormats {
  import opened Text
  import BookmarkFile
  import BookmarkTree
  import DownloadsFile
  import History
  import HistoryFile
  import Session
  import Settings
  import SettingsFile

  /** A text with nothing in it that a line could not hold. */
  predicate IsSimple(text: string) {
    forall c <- text :: c != '\\' && c != '\t' && c != '\n' && c != '\r'
  }

  lemma {:induction false} SimpleIsKept(text: string)
    requires IsSimple(text)
    ensures Escaped(text) == text
  {
    if text != [] {
      assert text[0] in text && forall c <- text[1..] :: c in text;
      SimpleIsKept(text[1..]);
      assert text == [text[0]] + text[1..];
    }
  }

  /** What a line could not hold is spelled with a backslash and a letter. */
  lemma EscapesAreSpelled()
    ensures Escaped("\\") == "\\\\" && Escaped("\t") == "\\t" && Escaped("\n") == "\\n" && Escaped("\r") == "\\r"
  {
  }

  lemma NumbersAreSpelled()
    ensures ToString(0) == "0" && ToString(2) == "2" && ToString(12) == "12" && ToString(-1) == "-1"
    ensures ToString(305) == "305"
  {
    assert Decimal(305) == Decimal(30) + "5" && Decimal(30) == Decimal(3) + "0";
  }

  /** A bookmark's line: its number, its folder's, 0 (1 for a folder), the second it was
      added, title and address. */
  lemma BookmarkIsSpelled(title: string, url: string)
    requires IsSimple(title) && IsSimple(url)
    ensures BookmarkFile.Line(BookmarkTree.Node(12, 2, false, title, url, 305.5, [])) ==
            "12" + "\t" + "2" + "\t" + "0" + "\t" + "305" + "\t" + title + "\t" + url
    ensures BookmarkFile.Line(BookmarkTree.Node(12, 2, true, title, [], 305.5, [])) ==
            "12" + "\t" + "2" + "\t" + "1" + "\t" + "305" + "\t" + title + "\t" + ""
  {
    NumbersAreSpelled();
    SimpleIsKept(title);
    SimpleIsKept(url);
    assert (305.5).Floor == 305;
    BookmarkFile.LineSpelled("12", "2", "0", "305", title, url);
    BookmarkFile.LineSpelled("12", "2", "1", "305", title, "");
  }

  /** An address's line in the history: address, title, and the seconds of its visits. */
  lemma HistoryIsSpelled(title: string, url: string)
    requires IsSimple(title) && IsSimple(url)
    ensures HistoryFile.Line(History.Entry(url, title, [12.5, 305.0])) == url + "\t" + title + "\t" + "12,305"
  {
    NumbersAreSpelled();
    SimpleIsKept(title);
    SimpleIsKept(url);
    var visits := [12.5, 305.0];
    assert (12.5).Floor == 12 && (305.0).Floor == 305 && visits[1..] == [305.0] && [305.0][1..] == [];
    assert HistoryFile.Stamps([305.0]) == ["305"];
    assert HistoryFile.Stamps(visits) == ["12"] + ["305"];
    assert ["12"] + ["305"] == ["12", "305"] && ["12", "305"][1..] == ["305"];
    assert Joined(["305"], ',') == "305";
    assert Joined(["12", "305"], ',') == "12,305";
    HistoryFile.ThreeFields(url, title, "12,305");
  }

  /** A download's line: how it ended (2 finished, 3 failed, 4 cancelled), what came of how
      much, when, where from, what it is called, where it went, what it is and what went
      wrong, with tabs between them. */
  lemma DownloadIsSpelled(url: string, name: string, path: string, kind: string, error: string)
    requires IsSimple(url) && IsSimple(name) && IsSimple(path) && IsSimple(kind) && IsSimple(error)
    ensures DownloadsFile.Line(DownloadsFile.Record(7, DownloadsFile.Finished, 0, url, name, path, kind, error,
                                                    12, -1, 305)) ==
            Joined(["2", "12", "-1", "305", url, name, path, kind, error], '\t')
    ensures DownloadsFile.CodeOf(DownloadsFile.Failed) == 3 && DownloadsFile.CodeOf(DownloadsFile.Cancelled) == 4
  {
    NumbersAreSpelled();
    SimpleIsKept(url);
    SimpleIsKept(name);
    SimpleIsKept(path);
    SimpleIsKept(kind);
    SimpleIsKept(error);
  }

  /** The settings: a key, a tab and a value on each line; an engine's value is its name, a
      tab and its template; the engine chosen is named last. */
  lemma SettingsAreSpelled(home: string, folder: string, name: string, query: string)
    ensures SettingsFile.AllLines(
              Settings.Values(home, true, [Settings.Engine(name, query)], 0, 305, true, false, true, false, folder)) ==
            ["home" + "\t" + home, "startup" + "\t" + "new-tab", "zoom" + "\t" + "305", "javascript" + "\t" + "on",
             "images" + "\t" + "off", "popups" + "\t" + "on", "do-not-track" + "\t" + "off",
             "downloads" + "\t" + folder, "engine" + "\t" + (name + "\t" + query), "default-engine" + "\t" + name]
  {
    NumbersAreSpelled();
    var engines := [Settings.Engine(name, query)];
    assert engines[1..] == [];
    assert SettingsFile.EngineLines(engines) == ["engine" + "\t" + (name + "\t" + query)];
  }

  /** The session: "HBSESSN" and a zero, then numbers of four bytes each, the lowest first:
      the version, how many tabs, which is active; and for each tab its address, its title,
      a byte for its pin and its history, each as so many bytes. */
  lemma SessionIsSpelled(a: Session.Byte, b: Session.Byte, c: Session.Byte)
    ensures Session.Encode([Session.Entry([a], [b, b], true, [c])], 0) ==
            [72, 66, 83, 69, 83, 83, 78, 0] + [1, 0, 0, 0] + [1, 0, 0, 0] + [0, 0, 0, 0]
            + [1, 0, 0, 0, a] + [2, 0, 0, 0, b, b] + [1] + [1, 0, 0, 0, c]
    ensures Session.U32(0x04030201) == [1, 2, 3, 4]
  {
    var entries := [Session.Entry([a], [b, b], true, [c])];
    assert entries[1..] == [];
    assert Session.EncodeEach(entries) == [Session.EncodeEntry(entries[0])];
    var parts := [Session.EncodeEntry(entries[0])];
    assert parts[1..] == [] && Session.Flat(parts) == parts[0];
  }
}
