/** What the browser reads off an address: the host a row is named by, the
    spelling a query matches, and whether a history may remember it. */
module Address {

  predicate StartsWith(text: string, prefix: string) {
    |prefix| <= |text| && text[..|prefix|] == prefix
  }

  predicate Contains(text: string, part: string) {
    exists at :: 0 <= at <= |text| && StartsWith(text[at..], part)
  }

  function FoldedChar(c: char): char {
    if 'A' <= c <= 'Z' then 'a' + (c - 'A') else c
  }

  function FoldCase(text: string): string {
    seq(|text|, i requires 0 <= i < |text| => FoldedChar(text[i]))
  }

  /** What follows the first "://", or nothing when there is none. */
  function AfterScheme(url: string): (string, bool) {
    if url == [] then ([], false)
    else if StartsWith(url, "://") then (url[3..], true)
    else AfterScheme(url[1..])
  }

  function Authority(text: string): string {
    if text == [] || text[0] in {'/', '?', '#'} then [] else [text[0]] + Authority(text[1..])
  }

  function AfterLast(text: string, c: char): string {
    if c !in text then text else AfterLast(text[1..], c)
  }

  function BeforeLast(text: string, c: char): string {
    if text == [] || text[|text| - 1] == c then (if text == [] then [] else text[..|text| - 1])
    else BeforeLast(text[..|text| - 1], c)
  }

  function WithoutWww(host: string): string {
    if StartsWith(host, "www.") then host[4..] else host
  }

  function HostOfUrl(url: string): string {
    var (rest, found) := AfterScheme(url);
    if !found then []
    else
      var named := AfterLast(Authority(rest), '@');
      var site := if ':' in named && ']' !in named then BeforeLast(named, ':') else named;
      WithoutWww(FoldCase(site))
  }

  function MatchableUrl(url: string): string {
    var text := FoldCase(url);
    var (rest, found) := AfterScheme(text);
    WithoutWww(if found then rest else text)
  }

  predicate IsSchemeChar(c: char) {
    'a' <= c <= 'z' || 'A' <= c <= 'Z' || '0' <= c <= '9' || c in {'+', '-', '.'}
  }

  /** The scheme an address opens with, lowercased, or nothing. */
  function SchemeOf(url: string, scheme: string): string {
    if url == [] then []
    else if url[0] == ':' then scheme
    else if !IsSchemeChar(url[0]) then []
    else SchemeOf(url[1..], scheme + [FoldedChar(url[0])])
  }

  predicate IsRecordable(url: string) {
    var scheme := SchemeOf(url, []);
    scheme != [] && scheme !in {"about", "data", "blob", "javascript"}
  }

  // --- What a host is -------------------------------------------------------------------------

  predicate IsUpper(c: char) {
    'A' <= c <= 'Z'
  }

  lemma {:induction false} AuthorityIs(text: string)
    ensures Authority(text) <= text && forall c <- Authority(text) :: c !in {'/', '?', '#'}
  {
    if text != [] && text[0] !in {'/', '?', '#'} {
      AuthorityIs(text[1..]);
      assert text == [text[0]] + text[1..];
    }
  }

  lemma {:induction false} AfterLastIs(text: string, c: char)
    ensures c !in AfterLast(text, c) && forall d <- AfterLast(text, c) :: d in text
  {
    if c in text {
      AfterLastIs(text[1..], c);
    }
  }

  lemma {:induction false} BeforeLastIs(text: string, c: char)
    ensures BeforeLast(text, c) <= text
  {
    if text != [] && text[|text| - 1] != c {
      BeforeLastIs(text[..|text| - 1], c);
    }
  }

  lemma FoldedIs(text: string)
    ensures forall c <- FoldCase(text) :: !IsUpper(c) && (c in text || 'a' <= c <= 'z')
    ensures FoldCase(FoldCase(text)) == FoldCase(text)
  {
    forall i | 0 <= i < |text|
      ensures !IsUpper(FoldCase(text)[i]) && (FoldCase(text)[i] in text || 'a' <= FoldCase(text)[i] <= 'z')
    {
      assert text[i] in text;
    }
  }

  /** A host names a site and nothing else: no path, no question, no place in a page, no
      name or password of a person, and no capital letter. */
  lemma HostIsBare(url: string)
    ensures forall c <- HostOfUrl(url) :: c !in {'/', '?', '#', '@'} && !IsUpper(c)
  {
    var authority := Authority(AfterScheme(url).0);
    var named := AfterLast(authority, '@');
    var site := if ':' in named && ']' !in named then BeforeLast(named, ':') else named;
    AuthorityIs(AfterScheme(url).0);
    AfterLastIs(authority, '@');
    BeforeLastIs(named, ':');
    FoldedIs(site);
    var folded := FoldCase(site);
    assert forall i :: 0 <= i < |site| ==> site[i] == named[i] && named[i] in named;
    assert forall c <- site :: c !in {'/', '?', '#', '@'};
    assert forall c <- WithoutWww(folded) :: c in folded;
  }

  lemma FoldedTail(text: string)
    requires text != []
    ensures FoldCase(text)[1..] == FoldCase(text[1..]) && FoldCase(text)[0] == FoldedChar(text[0])
  {
  }

  lemma {:induction false} AfterSchemeFolds(url: string)
    ensures AfterScheme(FoldCase(url)) == (FoldCase(AfterScheme(url).0), AfterScheme(url).1)
  {
    if url == [] {
      assert FoldCase(url) == [];
    } else {
      FoldedTail(url);
      AfterSchemeFolds(url[1..]);
      SeparatorFolds(url);
      assert |url| >= 3 ==> FoldCase(url)[3..] == FoldCase(url[3..]);
    }
  }

  lemma SeparatorFolds(url: string)
    ensures StartsWith(FoldCase(url), "://") <==> StartsWith(url, "://")
  {
    if |url| >= 3 {
      assert url[..3] == [url[0], url[1], url[2]];
      assert FoldCase(url)[..3] == [FoldedChar(url[0]), FoldedChar(url[1]), FoldedChar(url[2])];
    }
  }

  lemma {:induction false} AuthorityFolds(text: string)
    ensures Authority(FoldCase(text)) == FoldCase(Authority(text))
  {
    if text != [] {
      FoldedTail(text);
      AuthorityFolds(text[1..]);
    }
  }

  lemma InFolded(text: string, c: char)
    requires !IsUpper(c) && !('a' <= c <= 'z')
    ensures c in FoldCase(text) <==> c in text
  {
    if c in text {
      var i :| 0 <= i < |text| && text[i] == c;
      assert FoldCase(text)[i] == c;
    }
  }

  lemma {:induction false} AfterLastFolds(text: string, c: char)
    requires !IsUpper(c) && !('a' <= c <= 'z')
    ensures AfterLast(FoldCase(text), c) == FoldCase(AfterLast(text, c))
  {
    InFolded(text, c);
    if c in text {
      FoldedTail(text);
      AfterLastFolds(text[1..], c);
    }
  }

  lemma {:induction false} BeforeLastFolds(text: string, c: char)
    requires !IsUpper(c) && !('a' <= c <= 'z')
    ensures BeforeLast(FoldCase(text), c) == FoldCase(BeforeLast(text, c))
  {
    if text != [] {
      var n := |text| - 1;
      assert FoldCase(text)[..n] == FoldCase(text[..n]) && FoldCase(text)[n] == FoldedChar(text[n]);
      if text[n] != c {
        BeforeLastFolds(text[..n], c);
      }
    }
  }

  /** However an address is cased, it is of the same site and answers the same queries. */
  lemma CaseIsIgnored(url: string)
    ensures HostOfUrl(FoldCase(url)) == HostOfUrl(url)
    ensures MatchableUrl(FoldCase(url)) == MatchableUrl(url)
  {
    FoldedIs(url);
    AfterSchemeFolds(url);
    var (rest, found) := AfterScheme(url);
    AuthorityFolds(rest);
    AfterLastFolds(Authority(rest), '@');
    var named := AfterLast(Authority(rest), '@');
    InFolded(named, ':');
    InFolded(named, ']');
    BeforeLastFolds(named, ':');
    FoldedIs(named);
    FoldedIs(BeforeLast(named, ':'));
  }

  // --- The loops ----------------------------------------------------------------------------

  method Fold(text: string) returns (folded: string)
    ensures folded == FoldCase(text)
  {
    folded := [];
    for i := 0 to |text|
      invariant folded == FoldCase(text[..i])
    {
      folded := folded + [if 'A' <= text[i] <= 'Z' then 'a' + (text[i] - 'A') else text[i]];
    }
    assert text[..|text|] == text;
  }

  method ReadScheme(url: string) returns (scheme: string)
    ensures scheme == SchemeOf(url, [])
  {
    scheme := [];
    ghost var rest := url;
    for i := 0 to |url|
      invariant rest == url[i..] && SchemeOf(rest, scheme) == SchemeOf(url, [])
    {
      assert rest[0] == url[i];
      rest := rest[1..];
      if url[i] == ':' {
        return;
      }
      if !IsSchemeChar(url[i]) {
        return [];
      }
      scheme := scheme + [if 'A' <= url[i] <= 'Z' then 'a' + (url[i] - 'A') else url[i]];
    }
    return [];
  }

  method ReadAuthority(text: string) returns (authority: string)
    ensures authority == Authority(text)
  {
    var end := 0;
    ghost var front, rest := [], text;
    while end < |text| && !(text[end] == '/' || text[end] == '?' || text[end] == '#')
      invariant end <= |text| && front == text[..end] && rest == text[end..]
      invariant front + Authority(rest) == Authority(text)
    {
      assert rest[0] == text[end];
      assert front + ([text[end]] + Authority(rest[1..])) == (front + [text[end]]) + Authority(rest[1..]);
      front, rest := front + [text[end]], rest[1..];
      end := end + 1;
    }
    assert front + [] == front;
    return text[..end];
  }
}
