/** The browsing history: one entry an address, with every visit to it. */
module History {
  import opened Address

  /** Host and folded spellings are read off the address and the title. */
  datatype Entry = Entry(url: string, title: string, visits: seq<real>)

  const MAX_VISITS := 128
  const MAX_ENTRIES := 8192
  const SAME_VISIT_SECONDS := 2.0

  function LastVisit(entry: Entry): real {
    if entry.visits == [] then 0.0 else entry.visits[|entry.visits| - 1]
  }

  // --- Recording ----------------------------------------------------------------------------

  function Newest(visits: seq<real>): seq<real> {
    if |visits| > MAX_VISITS then visits[|visits| - MAX_VISITS..] else visits
  }

  /** A visit inside the window takes the place of the one before it. */
  function Visited(visits: seq<real>, at: real): (after: seq<real>)
    ensures after != [] && after[|after| - 1] == at
  {
    var n := |visits|;
    Newest(if n > 0 && at - visits[n - 1] < SAME_VISIT_SECONDS then visits[..n - 1] + [at] else visits + [at])
  }

  /** An empty title leaves the one there is. */
  function Named(entry: Entry, title: string): Entry {
    if title == [] then entry else entry.(title := title)
  }

  function Find(entries: seq<Entry>, url: string): (at: int)
    ensures -1 <= at < |entries|
    ensures at >= 0 ==> entries[at].url == url
    ensures at < 0 ==> forall e <- entries :: e.url != url
  {
    if entries == [] then -1
    else if entries[0].url == url then 0
    else var rest := Find(entries[1..], url); if rest < 0 then -1 else rest + 1
  }

  function Noted(entries: seq<Entry>, url: string, title: string, at: real): seq<Entry> {
    var place := Find(entries, url);
    if place < 0 then entries + [Named(Entry(url, "", [at]), title)]
    else
      var entry := Named(entries[place], title);
      entries[place := entry.(visits := Visited(entry.visits, at))]
  }

  /** One way of putting the entries in order by their last visit, the latest first;
      the library sort leaves the order of equals open. */
  ghost predicate IsByLastVisit(sorted: seq<Entry>, entries: seq<Entry>) {
    && |sorted| == |entries| && multiset(sorted) == multiset(entries)
    && (forall i, j :: 0 <= i < j < |sorted| ==> LastVisit(sorted[i]) >= LastVisit(sorted[j]))
  }

  /** The entries kept at the cap, whichever order of equals the sort chose. */
  ghost predicate IsTrimmed(kept: seq<Entry>, entries: seq<Entry>) {
    if |entries| <= MAX_ENTRIES then kept == entries
    else exists sorted :: IsByLastVisit(sorted, entries) && kept == sorted[..MAX_ENTRIES]
  }

  // --- Retitling and forgetting -------------------------------------------------------------

  function Retitled(entries: seq<Entry>, url: string, title: string): seq<Entry> {
    var place := Find(entries, url);
    if title == [] || place < 0 then entries else entries[place := entries[place].(title := title)]
  }

  /** The entries that are not to be dropped. */
  function Without(entries: seq<Entry>, drop: Entry -> bool): seq<Entry> {
    if entries == [] then [] else (if drop(entries[0]) then [] else [entries[0]]) + Without(entries[1..], drop)
  }

  function HasUrl(url: string): Entry -> bool {
    (e: Entry) => e.url == url
  }

  function HasHost(host: string): Entry -> bool {
    (e: Entry) => HostOfUrl(e.url) == host
  }

  function HasNoVisit(): Entry -> bool {
    (e: Entry) => e.visits == []
  }

  /** The visits before a moment, of a list in order. */
  function Earlier(visits: seq<real>, since: real): (kept: seq<real>)
    ensures kept <= visits
  {
    if visits == [] || visits[0] >= since then []
    else
      var rest := Earlier(visits[1..], since);
      assert [visits[0]] + rest <= [visits[0]] + visits[1..];
      [visits[0]] + rest
  }

  /** Whether no visit before a moment comes after one that is not: what the search
      for the moment asks of a list. */
  predicate Splits(visits: seq<real>, since: real) {
    forall i, j :: 0 <= i < j < |visits| && visits[j] < since ==> visits[i] < since
  }

  /** What the search may leave of a list: of one it does not suit, any front part. */
  predicate IsCut(left: seq<real>, visits: seq<real>, since: real) {
    left <= visits && (Splits(visits, since) ==> left == Earlier(visits, since))
  }

  predicate AreCut(cut: seq<Entry>, entries: seq<Entry>, since: real) {
    && |cut| == |entries|
    && forall i :: 0 <= i < |cut| ==>
         cut[i] == entries[i].(visits := cut[i].visits) && IsCut(cut[i].visits, entries[i].visits, since)
  }

  /** Addresses cut to nothing go, when anything was cut. */
  function Kept(cut: seq<Entry>, entries: seq<Entry>): seq<Entry> {
    if cut == entries then entries else Without(cut, HasNoVisit())
  }

  /** What forgetting since a moment may leave; a moment that is not one forgets
      everything. */
  ghost predicate IsForgotten(left: seq<Entry>, entries: seq<Entry>, since: real) {
    if since <= 0.0 then left == []
    else exists cut :: AreCut(cut, entries, since) && left == Kept(cut, entries)
  }

  // --- Steps ----------------------------------------------------------------------------------

  datatype Step =
    | Record(url: string, title: string, at: real, kept: seq<Entry>)   // kept: what the trim leaves
    | Retitle(url: string, title: string)
    | ForgetUrl(url: string)
    | ForgetHost(host: string)
    | ForgetSince(since: real, left: seq<Entry>)                       // left: what the search leaves

  /** The moment a visit is recorded at: the one given, or now when none is. */
  function MomentOf(moment: real, now: real): real {
    if moment > 0.0 then moment else now
  }

  ghost function Next(entries: seq<Entry>, step: Step): seq<Entry> {
    match step
    case Record(url, title, at, kept) =>
      if IsRecordable(url) && at > 0.0 && IsTrimmed(kept, Noted(entries, url, title, at)) then kept else entries
    case Retitle(url, title) => Retitled(entries, url, title)
    case ForgetUrl(url) => Without(entries, HasUrl(url))
    case ForgetHost(host) => Without(entries, HasHost(FoldCase(host)))
    case ForgetSince(since, left) => if IsForgotten(left, entries, since) then left else entries
  }

  ghost function Run(steps: seq<Step>): seq<Entry> {
    if steps == [] then [] else Next(Run(steps[..|steps| - 1]), steps[|steps| - 1])
  }

  /** The latest moment a visit was recorded at. */
  function Clock(steps: seq<Step>): real {
    if steps == [] then 0.0
    else if steps[|steps| - 1].Record? then steps[|steps| - 1].at
    else Clock(steps[..|steps| - 1])
  }

  predicate ClockNeverGoesBack(steps: seq<Step>) {
    steps != [] ==>
      var before := steps[..|steps| - 1];
      ClockNeverGoesBack(before) && (steps[|steps| - 1].Record? ==> steps[|steps| - 1].at >= Clock(before))
  }

  // --- Invariants -----------------------------------------------------------------------------

  predicate Ascends(visits: seq<real>) {
    forall i, j :: 0 <= i < j < |visits| ==> visits[i] <= visits[j]
  }

  predicate Spaced(visits: seq<real>) {
    forall i :: 0 < i < |visits| ==> visits[i - 1] + SAME_VISIT_SECONDS <= visits[i]
  }

  predicate AllPositive(visits: seq<real>) {
    forall v <- visits :: v > 0.0
  }

  /** Kept whatever the clock does. */
  predicate IsSound(entry: Entry) {
    0 < |entry.visits| <= MAX_VISITS && AllPositive(entry.visits)
  }

  predicate Unique(entries: seq<Entry>) {
    forall i, j :: 0 <= i < j < |entries| ==> entries[i].url != entries[j].url
  }

  ghost predicate Sound(entries: seq<Entry>) {
    && Unique(entries) && |entries| <= MAX_ENTRIES
    && forall e <- entries :: IsSound(e)
  }

  /** Kept while the clock never goes back. */
  predicate IsTimely(entry: Entry, clock: real) {
    Spaced(entry.visits) && forall v <- entry.visits :: v <= clock
  }

  ghost predicate Timely(entries: seq<Entry>, clock: real) {
    forall e <- entries :: IsTimely(e, clock)
  }
}
