/** An address put together from its parts, and which of them are read off it. */
module AddressParts {
  import opened Address

  // --- Folding ----------------------------------------------------------------------------------

  const CAPITALS := "ABCDEFGHIJKLMNOPQRSTUVWXYZ"
  const SMALL := "abcdefghijklmnopqrstuvwxyz"

  /** Folding turns the letters A to Z small and leaves every other character. */
  lemma FoldsLetters(text: string, i: nat)
    requires i < |text|
    ensures |FoldCase(text)| == |text|
    ensures text[i] !in CAPITALS ==> FoldCase(text)[i] == text[i]
    ensures forall k :: 0 <= k < 26 && text[i] == CAPITALS[k] ==> FoldCase(text)[i] == SMALL[k]
  {
    forall k | 0 <= k < 26
      ensures 'A' <= CAPITALS[k] <= 'Z' && FoldedChar(CAPITALS[k]) == SMALL[k]
    {
      Letter(k);
    }
    if text[i] !in CAPITALS && 'A' <= text[i] <= 'Z' {
      Letter(text[i] as int - 'A' as int);
    }
  }

  lemma Letter(k: int)
    requires 0 <= k < 26
    ensures CAPITALS[k] == 'A' + k as char && SMALL[k] == 'a' + k as char
  {
  }

  // --- Parts ------------------------------------------------------------------------------------

  predicate IsPlain(text: string) {
    forall c <- text :: c !in {'/', '?', '#'}
  }

  predicate IsTail(tail: string) {
    tail == [] || tail[0] in {'/', '?', '#'}
  }

  /** A name and a password, up to the sign that ends them; or nothing. */
  predicate IsUser(user: string) {
    IsPlain(user) && (user == [] || user[|user| - 1] == '@')
  }

  /** A port, behind the colon that starts it; or nothing. */
  predicate IsPort(port: string) {
    IsPlain(port) && '@' !in port && ']' !in port && (port == [] || (port[0] == ':' && ':' !in port[1..]))
  }

  /** A site under the name it is listed by. */
  function Site(host: string): string {
    var folded := FoldCase(host);
    if |folded| >= 4 && folded[..4] == "www." then folded[4..] else folded
  }

  // --- Finding them -----------------------------------------------------------------------------

  lemma {:induction false} SchemeEnds(scheme: string, rest: string)
    requires ':' !in scheme
    ensures AfterScheme(scheme + "://" + rest) == (rest, true)
  {
    var url := scheme + "://" + rest;
    if scheme == [] {
      assert url[..3] == "://" && url[3..] == rest;
    } else {
      SchemeEnds(scheme[1..], rest);
      assert url[0] == scheme[0] && url[1..] == scheme[1..] + "://" + rest;
      assert scheme[0] in scheme;
    }
  }

  lemma {:induction false} NoSchemeEnds(url: string)
    requires !Contains(url, "://")
    ensures AfterScheme(url) == ([], false)
  {
    if url != [] {
      assert url[0..] == url;
      forall at | 0 <= at <= |url[1..]|
        ensures !StartsWith(url[1..][at..], "://")
      {
        assert url[1..][at..] == url[at + 1..];
      }
      NoSchemeEnds(url[1..]);
    }
  }

  lemma {:induction false} AuthorityEnds(authority: string, tail: string)
    requires IsPlain(authority) && IsTail(tail)
    ensures Authority(authority + tail) == authority
  {
    if authority == [] {
      assert [] + tail == tail;
    } else {
      assert forall c <- authority[1..] :: c in authority;
      AuthorityEnds(authority[1..], tail);
      assert (authority + tail)[0] == authority[0] && (authority + tail)[1..] == authority[1..] + tail;
      assert authority[0] in authority;
      assert authority == [authority[0]] + authority[1..];
    }
  }

  lemma {:induction false} AfterLastEnds(front: string, c: char, back: string)
    requires c !in back && (front == [] || front[|front| - 1] == c)
    ensures AfterLast(front + back, c) == back
  {
    if front == [] {
      assert front + back == back;
    } else {
      assert c == (front + back)[|front| - 1] && c in front + back;
      assert (front + back)[1..] == front[1..] + back;
      AfterLastEnds(front[1..], c, back);
    }
  }

  lemma {:induction false} BeforeLastEnds(front: string, c: char, back: string)
    requires c !in back
    ensures BeforeLast(front + [c] + back, c) == front
  {
    var text := front + [c] + back;
    var n := |text| - 1;
    if back == [] {
      assert text[n] == c && text[..n] == front;
    } else {
      assert text[n] == back[|back| - 1] && back[|back| - 1] in back;
      assert text[..n] == front + [c] + back[..|back| - 1];
      BeforeLastEnds(front, c, back[..|back| - 1]);
    }
  }

  lemma PlainConcat(a: string, b: string)
    requires IsPlain(a) && IsPlain(b)
    ensures IsPlain(a + b)
  {
  }

  lemma NamedIs(host: string, port: string)
    requires ':' !in host && IsPort(port)
    ensures (if ':' in host + port && ']' !in host + port then BeforeLast(host + port, ':') else host + port)
            == if ']' in host then host + port else host
  {
    if port == [] {
      assert host + port == host;
    } else {
      assert (host + port)[|host|] == ':';
      assert port == [':'] + port[1..] && host + port == host + [':'] + port[1..];
      BeforeLastEnds(host, ':', port[1..]);
    }
  }

  /** Whoever is named in it and whatever follows, an address is of the site its host names,
      in small letters, without its port and without a "www." in front; only beside a
      bracket does the port stay. */
  lemma HostIsFound(scheme: string, user: string, host: string, port: string, tail: string)
    requires ':' !in scheme && IsUser(user) && IsPlain(host) && '@' !in host && ':' !in host && IsPort(port)
    requires IsTail(tail)
    ensures HostOfUrl(scheme + "://" + (user + (host + port) + tail)) ==
            Site(if ']' in host then host + port else host)
  {
    var rest := user + (host + port) + tail;
    SchemeEnds(scheme, rest);
    PlainConcat(host, port);
    PlainConcat(user, host + port);
    AuthorityEnds(user + (host + port), tail);
    AfterLastEnds(user, '@', host + port);
    NamedIs(host, port);
  }

  /** An address without the marks behind a scheme is of no site. */
  lemma NoHostIsFound(url: string)
    requires !Contains(url, "://")
    ensures HostOfUrl(url) == []
  {
    NoSchemeEnds(url);
  }

  /** A query is held against what follows the scheme, or the whole address when it has
      none, in small letters and without a "www." in front. */
  lemma MatchableIsFound(scheme: string, rest: string)
    requires ':' !in scheme
    ensures MatchableUrl(scheme + "://" + rest) == Site(rest)
    ensures !Contains(rest, "://") ==> MatchableUrl(rest) == Site(rest)
  {
    SchemeEnds(scheme, rest);
    AfterSchemeFolds(scheme + "://" + rest);
    if !Contains(rest, "://") {
      NoSchemeEnds(rest);
      AfterSchemeFolds(rest);
    }
  }

  // --- Which addresses are remembered -----------------------------------------------------------

  /** A scheme: letters, digits and a few signs. */
  predicate IsScheme(text: string) {
    forall c <- text :: 'a' <= c <= 'z' || 'A' <= c <= 'Z' || '0' <= c <= '9' || c == '+' || c == '-' || c == '.'
  }

  /** A scheme ends at the first colon. */
  predicate SchemeEndsAt(url: string, n: nat) {
    n < |url| && url[n] == ':' && IsScheme(url[..n])
  }

  lemma {:induction false} SchemeRead(url: string, n: nat, before: string)
    requires SchemeEndsAt(url, n)
    ensures SchemeOf(url, before) == before + FoldCase(url[..n])
  {
    if n == 0 {
      assert FoldCase(url[..0]) == [] && before + [] == before;
    } else {
      assert url[..n][0] == url[0] && url[0] in url[..n] && url[..n] == [url[0]] + url[1..][..n - 1];
      assert url[..n][1..] == url[1..][..n - 1];
      assert forall c <- url[..n][1..] :: c in url[..n];
      SchemeRead(url[1..], n - 1, before + [FoldedChar(url[0])]);
      assert FoldCase(url[..n]) == [FoldedChar(url[0])] + FoldCase(url[1..][..n - 1]);
    }
  }

  lemma {:induction false} SchemeWasThere(url: string, before: string) returns (n: nat)
    requires SchemeOf(url, before) != []
    ensures SchemeEndsAt(url, n)
  {
    if url[0] == ':' {
      n := 0;
    } else {
      n := SchemeWasThere(url[1..], before + [FoldedChar(url[0])]);
      n := n + 1;
      assert url[..n] == [url[0]] + url[1..][..n - 1];
    }
  }

  /** An address is remembered exactly when it has a scheme, and that is not one of the
      browser's own or of a page's making, however it is cased. */
  lemma RecordableExactly(url: string)
    ensures IsRecordable(url) <==>
            exists n :: 0 < n < |url| && SchemeEndsAt(url, n)
                        && FoldCase(url[..n]) !in {"about", "data", "blob", "javascript"}
  {
    forall n | 0 < n < |url| && SchemeEndsAt(url, n)
      ensures SchemeOf(url, []) == FoldCase(url[..n])
    {
      SchemeRead(url, n, []);
    }
    if SchemeOf(url, []) != [] {
      var n := SchemeWasThere(url, []);
      SchemeRead(url, n, []);
    }
  }
}
