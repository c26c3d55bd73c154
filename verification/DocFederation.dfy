/** Merging the documentation tickets of several endpoints into one list. */
module DocFederation {
  import opened Options
  import Lex
  import Text

  datatype Kind = Workspace | Repo

  datatype Endpoint = Endpoint(name: string, kind: Kind, baseUrl: string, webUrl: string, repo: string, workspace: string)

  /** A timestamp as received, and the instant parseFlexibleTime makes of it. */
  datatype Stamp = Stamp(raw: string, instant: int)

  datatype Item = Item(ticket: string, title: string, status: string, topics: seq<string>, updatedAt: Stamp)

  /** What asking an endpoint gave: an error, or its tickets. */
  datatype Snapshot = Snapshot(endpoint: Endpoint, error: Option<string>, indexedAt: Stamp, tickets: seq<Item>)

  datatype Context = Context(ticket: string, docHomeRepo: string)

  /** An aggregated ticket; the source columns are those of its endpoint. */
  datatype Candidate = Candidate(
    ticket: string,
    title: string,
    status: string,
    topics: seq<string>,
    docHomeRepo: string,
    active: bool,
    source: Endpoint,
    updatedAt: Stamp,
    indexedAt: Stamp)

  // ----- Candidates -----

  function PairKey(ticket: string, repo: string): string {
    Text.Upper(ticket) + "|" + Text.Lower(repo)
  }

  function BoolKey(active: bool): string {
    if active then "active" else "inactive"
  }

  function Key(c: Candidate): string {
    PairKey(c.ticket, c.docHomeRepo) + "|" + BoolKey(c.active)
  }

  function ActiveKeys(contexts: seq<Context>): set<string> {
    if |contexts| == 0 then {}
    else
      var last := contexts[|contexts| - 1];
      var ticket, repo := Text.Trim(last.ticket), Text.Trim(last.docHomeRepo);
      ActiveKeys(contexts[..|contexts| - 1]) + if ticket == "" || repo == "" then {} else {PairKey(ticket, repo)}
  }

  function CandidateOf(s: Snapshot, item: Item, active: set<string>): Option<Candidate> {
    var ticket, repo := Text.Trim(item.ticket), Text.Trim(s.endpoint.repo);
    if ticket == "" then None
    else Some(Candidate(ticket, Text.Trim(item.title), Text.Trim(item.status), item.topics, repo, PairKey(ticket, repo) in active,
                        s.endpoint, item.updatedAt, s.indexedAt))
  }

  function Listed(c: Option<Candidate>): seq<Candidate> {
    if c.None? then [] else [c.value]
  }

  function ItemCandidates(s: Snapshot, items: seq<Item>, active: set<string>): seq<Candidate> {
    if |items| == 0 then []
    else ItemCandidates(s, items[..|items| - 1], active) + Listed(CandidateOf(s, items[|items| - 1], active))
  }

  function SnapshotCandidates(s: Snapshot, active: set<string>): seq<Candidate> {
    if s.error.Some? then [] else ItemCandidates(s, s.tickets, active)
  }

  function Candidates(snapshots: seq<Snapshot>, active: set<string>): seq<Candidate> {
    if |snapshots| == 0 then []
    else Candidates(snapshots[..|snapshots| - 1], active) + SnapshotCandidates(snapshots[|snapshots| - 1], active)
  }

  // ----- What the candidates are -----

  /** Some context names the ticket and the repository, whatever their case. */
  ghost predicate IsActive(contexts: seq<Context>, ticket: string, repo: string) {
    exists context <- contexts :: Names(context, ticket, repo)
  }

  predicate Names(context: Context, ticket: string, repo: string) {
    && Text.Trim(context.ticket) != "" && Text.Trim(context.docHomeRepo) != ""
    && Text.Upper(Text.Trim(context.ticket)) + "|" + Text.Lower(Text.Trim(context.docHomeRepo)) == Text.Upper(ticket) + "|" + Text.Lower(repo)
  }

  /** The candidate shows an item of the snapshot, trimmed, with the endpoint it comes from. */
  ghost predicate Shows(c: Candidate, s: Snapshot, item: Item, contexts: seq<Context>) {
    && c.ticket == Text.Trim(item.ticket) != "" && c.title == Text.Trim(item.title) && c.status == Text.Trim(item.status) && c.topics == item.topics
    && c.docHomeRepo == Text.Trim(s.endpoint.repo) && c.source == s.endpoint && c.updatedAt == item.updatedAt && c.indexedAt == s.indexedAt
    && (c.active <==> IsActive(contexts, c.ticket, c.docHomeRepo))
  }

  /** It shows an item of a snapshot that was got without an error. */
  ghost predicate ComesFrom(c: Candidate, snapshots: seq<Snapshot>, contexts: seq<Context>) {
    exists s :: s in snapshots && s.error.None? && IsShown(c, s, s.tickets, contexts)
  }

  ghost predicate IsShown(c: Candidate, s: Snapshot, items: seq<Item>, contexts: seq<Context>) {
    exists item :: item in items && Shows(c, s, item, contexts)
  }

  lemma {:induction false} ActiveExactly(contexts: seq<Context>, ticket: string, repo: string)
    ensures PairKey(ticket, repo) in ActiveKeys(contexts) <==> IsActive(contexts, ticket, repo)
  {
    if |contexts| > 0 {
      var before, last := contexts[..|contexts| - 1], contexts[|contexts| - 1];
      ActiveExactly(before, ticket, repo);
      assert contexts == before + [last];
      assert IsActive(contexts, ticket, repo) <==> IsActive(before, ticket, repo) || Names(last, ticket, repo);
    }
  }

  lemma CandidateShows(s: Snapshot, item: Item, contexts: seq<Context>, c: Candidate)
    ensures CandidateOf(s, item, ActiveKeys(contexts)) == Some(c) <==> Shows(c, s, item, contexts)
  {
    ActiveExactly(contexts, Text.Trim(item.ticket), Text.Trim(s.endpoint.repo));
  }

  lemma {:induction false} ItemsShown(s: Snapshot, items: seq<Item>, contexts: seq<Context>, c: Candidate)
    ensures c in ItemCandidates(s, items, ActiveKeys(contexts)) <==> IsShown(c, s, items, contexts)
  {
    if |items| > 0 {
      var before, last := items[..|items| - 1], items[|items| - 1];
      ItemsShown(s, before, contexts, c);
      CandidateShows(s, last, contexts, c);
      assert items == before + [last];
      assert c in Listed(CandidateOf(s, last, ActiveKeys(contexts))) <==> CandidateOf(s, last, ActiveKeys(contexts)) == Some(c);
    }
  }

  /** The candidates are what the items of the snapshots that were got are shown as; a blank ticket is none. */
  lemma {:induction false} CandidatesExactly(snapshots: seq<Snapshot>, contexts: seq<Context>, c: Candidate)
    ensures c in Candidates(snapshots, ActiveKeys(contexts)) <==> ComesFrom(c, snapshots, contexts)
  {
    if |snapshots| > 0 {
      var before, last := snapshots[..|snapshots| - 1], snapshots[|snapshots| - 1];
      CandidatesExactly(before, contexts, c);
      ItemsShown(last, last.tickets, contexts, c);
      assert snapshots == before + [last];
      assert ComesFrom(c, snapshots, contexts) <==> ComesFrom(c, before, contexts) || (last.error.None? && IsShown(c, last, last.tickets, contexts));
    }
  }

  // ----- Preference -----

  function KindRank(kind: Kind): nat {
    if kind == Workspace then 2 else 1
  }

  /** preferredOver. */
  predicate Preferred(c: Candidate, existing: Candidate) {
    if KindRank(c.source.kind) != KindRank(existing.source.kind) then KindRank(c.source.kind) > KindRank(existing.source.kind)
    else if c.updatedAt.instant != existing.updatedAt.instant then c.updatedAt.instant > existing.updatedAt.instant
    else if c.indexedAt.instant != existing.indexedAt.instant then c.indexedAt.instant > existing.indexedAt.instant
    else Lex.Less(c.source.name, existing.source.name)
  }

  /** A workspace's ticket is preferred over a repository's; of two of one kind the one updated later, then the one indexed later,
      then the one whose endpoint has the smaller name. */
  lemma PreferredExactly(a: Candidate, b: Candidate)
    ensures Preferred(a, b) <==>
            || (a.source.kind == Workspace && b.source.kind == Repo)
            || (a.source.kind == b.source.kind && Fresher(a, b))
            || (a.source.kind == b.source.kind && !Fresher(b, a) && Lex.Less(a.source.name, b.source.name))
  {
  }

  /** Updated later, or at the same time and indexed later. */
  predicate Fresher(a: Candidate, b: Candidate) {
    a.updatedAt.instant > b.updatedAt.instant || (a.updatedAt.instant == b.updatedAt.instant && a.indexedAt.instant > b.indexedAt.instant)
  }

  /** Preference is a strict order, up to ties. */
  lemma PreferredIsWeakOrder(a: Candidate, b: Candidate, c: Candidate)
    ensures !(Preferred(a, b) && Preferred(b, a))
    ensures Preferred(a, b) && Preferred(b, c) ==> Preferred(a, c)
    ensures !Preferred(a, b) && !Preferred(b, c) ==> !Preferred(a, c)
  {
    var x, y, z := a.source.name, b.source.name, c.source.name;
    Lex.LessTotal(x, y);
    Lex.LessTotal(y, z);
    Lex.LessTotal(x, z);
    if Lex.Less(x, y) && Lex.Less(y, z) { Lex.LessTransitive(x, y, z); }
    if Lex.Less(x, z) && Lex.Less(z, y) { Lex.LessTransitive(x, z, y); }
    if Lex.Less(y, x) && Lex.Less(x, z) { Lex.LessTransitive(y, x, z); }
  }

  // ----- The best candidate of each key -----

  function Improve(byKey: map<string, Candidate>, c: Candidate): map<string, Candidate> {
    if Key(c) !in byKey || Preferred(c, byKey[Key(c)]) then byKey[Key(c) := c] else byKey
  }

  function Best(candidates: seq<Candidate>): map<string, Candidate> {
    if |candidates| == 0 then map[]
    else Improve(Best(candidates[..|candidates| - 1]), candidates[|candidates| - 1])
  }

  function Pick(candidates: seq<Candidate>, key: string): Option<Candidate> {
    if key in Best(candidates) then Some(Best(candidates)[key]) else None
  }

  /** Nothing with its key among the candidates is preferred over `c`. */
  ghost predicate Top(candidates: seq<Candidate>, c: Candidate) {
    forall other <- candidates :: Key(other) == Key(c) ==> !Preferred(other, c)
  }

  function Join(a: Option<Candidate>, b: Option<Candidate>): Option<Candidate> {
    if a.None? || (b.Some? && Preferred(b.value, a.value)) then b else a
  }

  /** One candidate more concerns its own key only. */
  lemma PickLast(candidates: seq<Candidate>, key: string)
    requires |candidates| > 0
    ensures var before, last := candidates[..|candidates| - 1], candidates[|candidates| - 1];
            Pick(candidates, key) == if Key(last) == key then Join(Pick(before, key), Some(last)) else Pick(before, key)
  {
  }

  /** A key is kept when some candidate has it, and one of those. */
  lemma {:induction false} PickIsMember(candidates: seq<Candidate>, key: string)
    ensures Pick(candidates, key).None? <==> forall c <- candidates :: Key(c) != key
    ensures Pick(candidates, key).Some? ==> Pick(candidates, key).value in candidates && Key(Pick(candidates, key).value) == key
  {
    if |candidates| > 0 {
      var before, last := candidates[..|candidates| - 1], candidates[|candidates| - 1];
      assert candidates == before + [last];
      PickIsMember(before, key);
      PickLast(candidates, key);
    }
  }

  lemma JoinKeepsTop(other: Candidate, kept: Candidate, last: Candidate)
    requires !Preferred(other, kept)
    ensures !Preferred(other, Join(Some(kept), Some(last)).value) && !Preferred(last, Join(Some(kept), Some(last)).value)
  {
    PreferredIsWeakOrder(last, kept, last);
    PreferredIsWeakOrder(other, kept, last);
    PreferredIsWeakOrder(last, last, last);
  }

  /** Nothing with its key is preferred over what is kept. */
  lemma {:induction false} PickIsTop(candidates: seq<Candidate>, key: string)
    ensures Pick(candidates, key).Some? ==> Top(candidates, Pick(candidates, key).value)
  {
    if |candidates| > 0 {
      var before, last := candidates[..|candidates| - 1], candidates[|candidates| - 1];
      PickIsTop(before, key);
      PickIsMember(before, key);
      PickIsMember(candidates, key);
      PickLast(candidates, key);
      assert candidates == before + [last];
      forall other <- candidates | Pick(candidates, key).Some? && Key(other) == key
        ensures !Preferred(other, Pick(candidates, key).value)
      {
        LastKeepsTop(before, last, other, key);
      }
    }
  }

  lemma LastKeepsTop(before: seq<Candidate>, last: Candidate, other: Candidate, key: string)
    requires Pick(before, key).Some? ==> Key(Pick(before, key).value) == key && Top(before, Pick(before, key).value)
    requires Pick(before, key).None? ==> forall c <- before :: Key(c) != key
    requires (other in before || other == last) && Key(other) == key
    ensures var picked := if Key(last) == key then Join(Pick(before, key), Some(last)) else Pick(before, key);
            picked.Some? && !Preferred(other, picked.value)
  {
    PreferredIsWeakOrder(last, last, last);
    var kept := Pick(before, key);
    if kept.Some? && Key(last) == key {
      PreferredIsWeakOrder(kept.value, kept.value, kept.value);
      JoinKeepsTop(if other in before then other else kept.value, kept.value, last);
    }
  }

  lemma JoinIsAssociative(a: Option<Candidate>, b: Option<Candidate>, c: Option<Candidate>)
    ensures Join(Join(a, b), c) == Join(a, Join(b, c))
  {
    if a.Some? && b.Some? && c.Some? {
      PreferredIsWeakOrder(c.value, b.value, a.value);
      PreferredIsWeakOrder(c.value, a.value, b.value);
    }
  }

  lemma {:induction false} PickConcat(a: seq<Candidate>, b: seq<Candidate>, key: string)
    ensures Pick(a + b, key) == Join(Pick(a, key), Pick(b, key))
  {
    if |b| == 0 {
      assert a + b == a;
    } else {
      var before, last := b[..|b| - 1], b[|b| - 1];
      assert (a + b)[..|a + b| - 1] == a + before;
      PickConcat(a, before, key);
      PickLast(a + b, key);
      PickLast(b, key);
      JoinIsAssociative(Pick(a, key), Pick(before, key), Some(last));
    }
  }

  // ----- The merged list -----

  predicate SameKeyParts(a: Candidate, b: Candidate) {
    a.active == b.active && Text.Upper(a.ticket) == Text.Upper(b.ticket) && Text.Lower(a.docHomeRepo) == Text.Lower(b.docHomeRepo)
  }

  /** The comparator: active tickets first, then by ticket, by repository and last by source name. */
  predicate Before(a: Candidate, b: Candidate) {
    if a.active != b.active then a.active
    else if Text.Upper(a.ticket) != Text.Upper(b.ticket) then Lex.Less(Text.Upper(a.ticket), Text.Upper(b.ticket))
    else if Text.Lower(a.docHomeRepo) != Text.Lower(b.docHomeRepo) then Lex.Less(Text.Lower(a.docHomeRepo), Text.Lower(b.docHomeRepo))
    else Lex.Less(a.source.name, b.source.name)
  }

  lemma BeforeIsStrict(a: Candidate, b: Candidate)
    ensures !(Before(a, b) && Before(b, a))
    ensures !SameKeyParts(a, b) ==> Before(a, b) || Before(b, a)
  {
    Lex.LessTotal(Text.Upper(a.ticket), Text.Upper(b.ticket));
    Lex.LessTotal(Text.Lower(a.docHomeRepo), Text.Lower(b.docHomeRepo));
    Lex.LessTotal(a.source.name, b.source.name);
  }

  lemma LessChains(x: string, y: string, z: string)
    ensures Lex.Less(x, y) && Lex.Less(y, z) ==> Lex.Less(x, z) && x != z
  {
    Lex.LessTotal(x, y);
    if Lex.Less(x, y) && Lex.Less(y, z) { Lex.LessTransitive(x, y, z); }
    Lex.LessTotal(x, z);
  }

  lemma BeforeIsTransitive(a: Candidate, b: Candidate, c: Candidate)
    requires Before(a, b) && Before(b, c)
    ensures Before(a, c)
  {
    LessChains(Text.Upper(a.ticket), Text.Upper(b.ticket), Text.Upper(c.ticket));
    LessChains(Text.Lower(a.docHomeRepo), Text.Lower(b.docHomeRepo), Text.Lower(c.docHomeRepo));
    LessChains(a.source.name, b.source.name, c.source.name);
  }

  ghost predicate Sorted(tickets: seq<Candidate>) {
    forall i, j :: 0 <= i < j < |tickets| ==> Before(tickets[i], tickets[j])
  }

  ghost predicate SameElements(tickets: seq<Candidate>, elements: set<Candidate>) {
    forall c :: c in tickets <==> c in elements
  }

  lemma NoneLeft(a: seq<Candidate>, b: seq<Candidate>)
    requires forall c :: c in a ==> c in b
    ensures |a| > 0 ==> |b| > 0
  {
    if |a| > 0 { assert a[0] in a; }
  }

  /** There is only one way to list given tickets in order. */
  lemma {:induction false} SortedIsUnique(a: seq<Candidate>, b: seq<Candidate>)
    requires Sorted(a) && Sorted(b) && forall c :: c in a <==> c in b
    ensures a == b
  {
    NoneLeft(a, b);
    NoneLeft(b, a);
    if |a| > 0 {
      assert a[0] in b && b[0] in a by { assert a[0] in a && b[0] in b; }
      FirstIsLeast(a, b[0]);
      FirstIsLeast(b, a[0]);
      BeforeIsStrict(a[0], b[0]);
      forall c
        ensures c in a[1..] <==> c in b[1..]
      {
        TailWithoutFirst(a, c);
        TailWithoutFirst(b, c);
      }
      SortedIsUnique(a[1..], b[1..]);
      assert a == [a[0]] + a[1..] && b == [b[0]] + b[1..];
    }
  }

  lemma FirstIsLeast(tickets: seq<Candidate>, c: Candidate)
    requires Sorted(tickets) && c in tickets
    ensures c == tickets[0] || Before(tickets[0], c)
  {
  }

  lemma TailWithoutFirst(tickets: seq<Candidate>, c: Candidate)
    requires Sorted(tickets) && |tickets| > 0
    ensures c in tickets[1..] <==> c in tickets && c != tickets[0]
  {
    BeforeIsStrict(tickets[0], tickets[0]);
    assert tickets == [tickets[0]] + tickets[1..];
  }

  /** What MergeWorkspaceFirst may return: the best candidate of each key, in order. */
  ghost predicate IsMerge(tickets: seq<Candidate>, snapshots: seq<Snapshot>, contexts: seq<Context>) {
    Sorted(tickets) && SameElements(tickets, Best(Candidates(snapshots, ActiveKeys(contexts))).Values)
  }

  /** Neither the order in which the map is walked nor the sort's instability shows. */
  lemma MergeIsDetermined(a: seq<Candidate>, b: seq<Candidate>, snapshots: seq<Snapshot>, contexts: seq<Context>)
    requires IsMerge(a, snapshots, contexts) && IsMerge(b, snapshots, contexts)
    ensures a == b
  {
    SortedIsUnique(a, b);
  }

  lemma {:induction false} BestIsKeyed(candidates: seq<Candidate>)
    ensures forall key <- Best(candidates) :: Key(Best(candidates)[key]) == key
  {
    forall key <- Best(candidates)
      ensures Key(Best(candidates)[key]) == key
    {
      PickIsMember(candidates, key);
    }
  }

  /** Active tickets first, then by ticket in upper case, then by repository in lower case. */
  predicate Precedes(a: Candidate, b: Candidate) {
    var s, t, p, q := Text.Upper(a.ticket), Text.Upper(b.ticket), Text.Lower(a.docHomeRepo), Text.Lower(b.docHomeRepo);
    || (a.active && !b.active)
    || (a.active == b.active && (Lex.Less(s, t) || (s == t && Lex.Less(p, q))))
  }

  /** No item with its key is shown as anything from a workspace when `c` is not or, from an endpoint of its kind, fresher. */
  ghost predicate Unsurpassed(c: Candidate, snapshots: seq<Snapshot>, contexts: seq<Context>) {
    forall other: Candidate | ComesFrom(other, snapshots, contexts) && Key(other) == Key(c) ::
      (other.source.kind == Workspace ==> c.source.kind == Workspace) && (other.source.kind == c.source.kind ==> !Fresher(other, c))
  }

  lemma TopIsUnsurpassed(c: Candidate, snapshots: seq<Snapshot>, contexts: seq<Context>)
    requires Top(Candidates(snapshots, ActiveKeys(contexts)), c)
    ensures Unsurpassed(c, snapshots, contexts)
  {
    forall other: Candidate | ComesFrom(other, snapshots, contexts) && Key(other) == Key(c)
      ensures (other.source.kind == Workspace ==> c.source.kind == Workspace) && (other.source.kind == c.source.kind ==> !Fresher(other, c))
    {
      CandidatesExactly(snapshots, contexts, other);
      assert !Preferred(other, c);
      PreferredExactly(other, c);
    }
  }

  ghost predicate HasKey(tickets: seq<Candidate>, key: string) {
    exists kept :: kept in tickets && Key(kept) == key
  }

  lemma TicketIsTop(tickets: seq<Candidate>, snapshots: seq<Snapshot>, contexts: seq<Context>, c: Candidate)
    requires IsMerge(tickets, snapshots, contexts) && c in tickets
    ensures c in Candidates(snapshots, ActiveKeys(contexts)) && Top(Candidates(snapshots, ActiveKeys(contexts)), c)
  {
    MergeKeeps(tickets, snapshots, contexts);
  }

  lemma KeyIsKept(tickets: seq<Candidate>, snapshots: seq<Snapshot>, contexts: seq<Context>, c: Candidate)
    requires IsMerge(tickets, snapshots, contexts) && c in Candidates(snapshots, ActiveKeys(contexts))
    ensures HasKey(tickets, Key(c))
  {
    MergeKeeps(tickets, snapshots, contexts);
  }

  /** Every ticket of the list shows an item of some snapshot and is unsurpassed; every item's key is there. */
  lemma MergeMeaning(tickets: seq<Candidate>, snapshots: seq<Snapshot>, contexts: seq<Context>)
    requires IsMerge(tickets, snapshots, contexts)
    ensures forall c <- tickets :: ComesFrom(c, snapshots, contexts) && Unsurpassed(c, snapshots, contexts)
    ensures forall c: Candidate | ComesFrom(c, snapshots, contexts) :: HasKey(tickets, Key(c))
  {
    forall c <- tickets ensures ComesFrom(c, snapshots, contexts) && Unsurpassed(c, snapshots, contexts) {
      TicketIsTop(tickets, snapshots, contexts, c);
      CandidatesExactly(snapshots, contexts, c);
      TopIsUnsurpassed(c, snapshots, contexts);
    }
    forall c: Candidate | ComesFrom(c, snapshots, contexts) ensures HasKey(tickets, Key(c)) {
      CandidatesExactly(snapshots, contexts, c);
      KeyIsKept(tickets, snapshots, contexts, c);
    }
  }

  /** The list is in order: active tickets first, then by ticket and repository, none of which occur twice. */
  lemma MergeIsOrdered(tickets: seq<Candidate>, snapshots: seq<Snapshot>, contexts: seq<Context>)
    requires IsMerge(tickets, snapshots, contexts)
    ensures forall i, j :: 0 <= i < j < |tickets| ==> Precedes(tickets[i], tickets[j])
  {
    forall i, j | 0 <= i < j < |tickets| ensures Precedes(tickets[i], tickets[j]) {
      var a, b := tickets[i], tickets[j];
      assert a in tickets && b in tickets && Before(a, b);
      SamePartsSameKey(a, b);
      if Key(a) == Key(b) { OneTicketPerKey(tickets, snapshots, contexts, a, b); }
      BeforePrecedes(a, b);
    }
  }

  lemma BeforePrecedes(a: Candidate, b: Candidate)
    requires Before(a, b) && (a != b ==> !SameKeyParts(a, b))
    ensures Precedes(a, b)
  {
    BeforeIsStrict(a, a);
  }

  /** Every ticket of the list is a candidate nothing with its key is preferred over; every candidate's key is there; and no
      two tickets agree in what the comparator looks at first, so its source-name tie-break is never reached. */
  lemma MergeKeeps(tickets: seq<Candidate>, snapshots: seq<Snapshot>, contexts: seq<Context>)
    requires IsMerge(tickets, snapshots, contexts)
    ensures var candidates := Candidates(snapshots, ActiveKeys(contexts));
            && (forall c <- tickets :: c in candidates && Top(candidates, c))
            && (forall c <- candidates :: exists kept :: kept in tickets && Key(kept) == Key(c))
    ensures forall a <- tickets, b <- tickets :: a != b ==> !SameKeyParts(a, b)
  {
    var candidates := Candidates(snapshots, ActiveKeys(contexts));
    BestIsKeyed(candidates);
    forall c <- tickets
      ensures Pick(candidates, Key(c)) == Some(c) && c in candidates && Top(candidates, c)
    {
      var key :| key in Best(candidates) && Best(candidates)[key] == c;
      assert Key(c) == key;
      PickIsMember(candidates, key);
      PickIsTop(candidates, key);
    }
    forall c <- candidates
      ensures exists kept :: kept in tickets && Key(kept) == Key(c)
    {
      PickIsMember(candidates, Key(c));
      var kept := Best(candidates)[Key(c)];
      assert kept in Best(candidates).Values && kept in tickets;
    }
    forall a <- tickets, b <- tickets | SameKeyParts(a, b)
      ensures a == b
    {
      assert Key(a) == Key(b);
    }
  }

  // ----- When the order of the snapshots does not matter -----

  ghost predicate SameSnapshots(a: seq<Snapshot>, b: seq<Snapshot>) {
    multiset(a) == multiset(b)
  }

  /** The candidates that win their own snapshot and lose to no other agree, key by key. */
  ghost predicate TopsAgree(snapshots: seq<Snapshot>, active: set<string>) {
    var all := Candidates(snapshots, active);
    forall s <- snapshots, t <- snapshots, key: string ::
      var x, y := Pick(SnapshotCandidates(s, active), key), Pick(SnapshotCandidates(t, active), key);
      x.Some? && y.Some? && Top(all, x.value) && Top(all, y.value) ==> x == y
  }

  lemma {:induction false} CandidatesConcat(a: seq<Snapshot>, b: seq<Snapshot>, active: set<string>)
    ensures Candidates(a + b, active) == Candidates(a, active) + Candidates(b, active)
  {
    if |b| == 0 {
      assert a + b == a;
    } else {
      var before, last := b[..|b| - 1], b[|b| - 1];
      assert (a + b)[..|a + b| - 1] == a + before;
      CandidatesConcat(a, before, active);
      CandidatesLast(a + b, active);
      CandidatesLast(b, active);
      Regroup(Candidates(a, active), Candidates(before, active), SnapshotCandidates(last, active));
    }
  }

  lemma CandidatesLast(snapshots: seq<Snapshot>, active: set<string>)
    requires |snapshots| > 0
    ensures Candidates(snapshots, active) ==
            Candidates(snapshots[..|snapshots| - 1], active) + SnapshotCandidates(snapshots[|snapshots| - 1], active)
  {
  }

  lemma Regroup(a: seq<Candidate>, b: seq<Candidate>, c: seq<Candidate>)
    ensures (a + b) + c == a + (b + c)
  {
  }

  lemma {:induction false} CandidatesMembers(snapshots: seq<Snapshot>, active: set<string>, c: Candidate)
    ensures c in Candidates(snapshots, active) <==> exists s :: s in snapshots && c in SnapshotCandidates(s, active)
  {
    if |snapshots| > 0 {
      var before, last := snapshots[..|snapshots| - 1], snapshots[|snapshots| - 1];
      assert snapshots == before + [last];
      CandidatesMembers(before, active, c);
    }
  }

  /** What is kept for a key won its own snapshot. */
  lemma {:induction false} PickWonItsSnapshot(snapshots: seq<Snapshot>, active: set<string>, key: string)
    requires Pick(Candidates(snapshots, active), key).Some?
    ensures exists s :: s in snapshots && Pick(SnapshotCandidates(s, active), key) == Pick(Candidates(snapshots, active), key)
  {
    var before, last := snapshots[..|snapshots| - 1], snapshots[|snapshots| - 1];
    assert snapshots == before + [last];
    PickConcat(Candidates(before, active), SnapshotCandidates(last, active), key);
    if Pick(SnapshotCandidates(last, active), key) != Pick(Candidates(snapshots, active), key) {
      PickWonItsSnapshot(before, active, key);
    }
  }

  lemma SameCandidates(a: seq<Snapshot>, b: seq<Snapshot>, active: set<string>)
    requires SameSnapshots(a, b)
    ensures forall c :: c in Candidates(a, active) <==> c in Candidates(b, active)
    ensures forall s :: s in a <==> s in b
  {
    assert forall s :: s in a <==> s in multiset(a);
    assert forall s :: s in b <==> s in multiset(b);
    forall c
      ensures c in Candidates(a, active) <==> c in Candidates(b, active)
    {
      CandidatesMembers(a, active, c);
      CandidatesMembers(b, active, c);
    }
  }

  lemma AgreeingTopsFix(a: seq<Snapshot>, b: seq<Snapshot>, active: set<string>, key: string)
    requires TopsAgree(a, active) && SameSnapshots(a, b)
    ensures Pick(Candidates(a, active), key) == Pick(Candidates(b, active), key)
  {
    var x, y := Candidates(a, active), Candidates(b, active);
    SameCandidates(a, b, active);
    PickIsMember(x, key);
    PickIsMember(y, key);
    if Pick(x, key).Some? {
      PickIsTop(x, key);
      PickIsTop(y, key);
      PickWonItsSnapshot(a, active, key);
      PickWonItsSnapshot(b, active, key);
      assert Top(x, Pick(y, key).value);
    }
  }

  lemma NothingInFront(a: seq<Candidate>)
    ensures [] + a == a
  {
  }

  lemma FrontCandidates(s: Snapshot, rest: seq<Snapshot>, active: set<string>)
    ensures Candidates([s] + rest, active) == SnapshotCandidates(s, active) + Candidates(rest, active)
  {
    CandidatesConcat([s], rest, active);
    CandidatesLast([s], active);
    assert [s][..|[s]| - 1] == [];
    NothingInFront(SnapshotCandidates(s, active));
  }

  /** A snapshot whose winner loses to nothing wins the key when it comes first. */
  lemma FirstTopWins(s: Snapshot, rest: seq<Snapshot>, snapshots: seq<Snapshot>, active: set<string>, key: string)
    requires SameSnapshots(snapshots, [s] + rest)
    requires var x := Pick(SnapshotCandidates(s, active), key); x.Some? && Top(Candidates(snapshots, active), x.value)
    ensures Pick(Candidates([s] + rest, active), key) == Pick(SnapshotCandidates(s, active), key)
  {
    SameCandidates(snapshots, [s] + rest, active);
    FrontCandidates(s, rest, active);
    FrontTopWins(SnapshotCandidates(s, active), Candidates(rest, active), Candidates(snapshots, active), key);
  }

  lemma FrontTopWins(front: seq<Candidate>, rest: seq<Candidate>, all: seq<Candidate>, key: string)
    requires forall c :: c in all <==> c in front + rest
    requires Pick(front, key).Some? && Top(all, Pick(front, key).value)
    ensures Pick(front + rest, key) == Pick(front, key)
  {
    PickConcat(front, rest, key);
    PickIsMember(front, key);
    PickIsMember(rest, key);
  }

  lemma MovedToFront(snapshots: seq<Snapshot>, s: Snapshot) returns (rest: seq<Snapshot>)
    requires s in snapshots
    ensures SameSnapshots(snapshots, [s] + rest)
  {
    var i :| 0 <= i < |snapshots| && snapshots[i] == s;
    rest := snapshots[..i] + snapshots[i + 1..];
    assert snapshots == snapshots[..i] + [s] + snapshots[i + 1..];
  }

  /** The best candidates do not depend on the order of the snapshots. */
  ghost predicate OrderDoesNotMatter(snapshots: seq<Snapshot>, active: set<string>) {
    forall other :: SameSnapshots(snapshots, other) ==> Best(Candidates(other, active)) == Best(Candidates(snapshots, active))
  }

  lemma SamePick(snapshots: seq<Snapshot>, other: seq<Snapshot>, active: set<string>, key: string)
    requires OrderDoesNotMatter(snapshots, active) && SameSnapshots(snapshots, other)
    ensures Pick(Candidates(other, active), key) == Pick(Candidates(snapshots, active), key)
  {
  }

  lemma UnbeatenIsKept(snapshots: seq<Snapshot>, active: set<string>, s: Snapshot, key: string)
    requires OrderDoesNotMatter(snapshots, active) && s in snapshots
    requires var x, all := Pick(SnapshotCandidates(s, active), key), Candidates(snapshots, active); x.Some? && Top(all, x.value)
    ensures Pick(SnapshotCandidates(s, active), key) == Pick(Candidates(snapshots, active), key)
  {
    var rest := MovedToFront(snapshots, s);
    FirstTopWins(s, rest, snapshots, active, key);
    SamePick(snapshots, [s] + rest, active, key);
  }

  /** Exactly when permuting the snapshots never changes the merge: unbeaten winners of different snapshots agree. */
  lemma OrderIndependentExactly(snapshots: seq<Snapshot>, active: set<string>)
    ensures OrderDoesNotMatter(snapshots, active) <==> TopsAgree(snapshots, active)
  {
    var all := Candidates(snapshots, active);
    if TopsAgree(snapshots, active) {
      forall other | SameSnapshots(snapshots, other)
        ensures Best(Candidates(other, active)) == Best(all)
      {
        forall key: string
          ensures Pick(Candidates(other, active), key) == Pick(all, key)
        {
          AgreeingTopsFix(snapshots, other, active, key);
        }
        SameBest(Candidates(other, active), all);
      }
    }
    if OrderDoesNotMatter(snapshots, active) {
      forall s <- snapshots, t <- snapshots, key: string |
        var x, y := Pick(SnapshotCandidates(s, active), key), Pick(SnapshotCandidates(t, active), key);
        x.Some? && y.Some? && Top(all, x.value) && Top(all, y.value)
        ensures Pick(SnapshotCandidates(s, active), key) == Pick(SnapshotCandidates(t, active), key)
      {
        UnbeatenIsKept(snapshots, active, s, key);
        UnbeatenIsKept(snapshots, active, t, key);
      }
    }
  }

  lemma SameBest(a: seq<Candidate>, b: seq<Candidate>)
    requires forall key: string :: Pick(a, key) == Pick(b, key)
    ensures Best(a) == Best(b)
  {
    forall key: string
      ensures (key in Best(a) <==> key in Best(b)) && (key in Best(a) ==> Best(a)[key] == Best(b)[key])
    {
      assert Pick(a, key) == Pick(b, key);
    }
  }

  /** No two different candidates of a key tie. */
  ghost predicate NoTies(candidates: seq<Candidate>) {
    forall a <- candidates, b <- candidates :: a != b && Key(a) == Key(b) ==> Preferred(a, b) || Preferred(b, a)
  }

  /** Without ties, permuting the snapshots leaves the merged list as it is. */
  lemma OrderIndependent(a: seq<Candidate>, b: seq<Candidate>, snapshots: seq<Snapshot>, other: seq<Snapshot>, contexts: seq<Context>)
    requires NoTies(Candidates(snapshots, ActiveKeys(contexts))) && SameSnapshots(snapshots, other)
    requires IsMerge(a, snapshots, contexts) && IsMerge(b, other, contexts)
    ensures a == b
  {
    var active := ActiveKeys(contexts);
    forall s <- snapshots, t <- snapshots, key: string |
      var x, y, all := Pick(SnapshotCandidates(s, active), key), Pick(SnapshotCandidates(t, active), key), Candidates(snapshots, active);
      x.Some? && y.Some? && Top(all, x.value) && Top(all, y.value)
      ensures Pick(SnapshotCandidates(s, active), key) == Pick(SnapshotCandidates(t, active), key)
    {
      var x, y := Pick(SnapshotCandidates(s, active), key).value, Pick(SnapshotCandidates(t, active), key).value;
      PickIsMember(SnapshotCandidates(s, active), key);
      PickIsMember(SnapshotCandidates(t, active), key);
      CandidatesMembers(snapshots, active, x);
      CandidatesMembers(snapshots, active, y);
    }
    OrderIndependentExactly(snapshots, active);
    assert Best(Candidates(other, active)) == Best(Candidates(snapshots, active));
    SortedIsUnique(a, b);
  }

  lemma PickOnly(c: Candidate)
    ensures Pick([c], Key(c)) == Some(c)
  {
    assert [] + [c] == [c];
    BestSnoc([], c);
  }

  lemma TwoCandidates(s: Snapshot, t: Snapshot, x: Candidate, y: Candidate, active: set<string>)
    requires SnapshotCandidates(s, active) == [x] && SnapshotCandidates(t, active) == [y]
    ensures Candidates([s, t], active) == [x, y]
  {
    CandidatesConcat([s], [t], active);
    assert [s] + [t] == [s, t] && [s][..0] == [] && [t][..0] == [];
  }

  lemma TiedTopsAgree(s: Snapshot, t: Snapshot, x: Candidate, y: Candidate, active: set<string>)
    requires SnapshotCandidates(s, active) == [x] && SnapshotCandidates(t, active) == [y]
    requires Key(x) == Key(y) && !Preferred(x, y) && !Preferred(y, x)
    requires OrderDoesNotMatter([s, t], active)
    ensures x == y
  {
    TwoCandidates(s, t, x, y, active);
    PreferredIsWeakOrder(x, x, x);
    PreferredIsWeakOrder(y, y, y);
    PickOnly(x);
    PickOnly(y);
    assert Top([x, y], x) && Top([x, y], y);
    UnbeatenIsKept([s, t], active, s, Key(x));
    UnbeatenIsKept([s, t], active, t, Key(x));
  }

  /** A tie shows: whenever two snapshots of one ticket each tie, with something else to tell the tickets apart. */
  lemma TiesShow(s: Snapshot, t: Snapshot, x: Candidate, y: Candidate, active: set<string>)
    requires SnapshotCandidates(s, active) == [x] && SnapshotCandidates(t, active) == [y]
    requires x != y && Key(x) == Key(y) && !Preferred(x, y) && !Preferred(y, x)
    ensures !OrderDoesNotMatter([s, t], active)
  {
    if OrderDoesNotMatter([s, t], active) { TiedTopsAgree(s, t, x, y, active); }
  }

  /** Two endpoints of one name, equally fresh, with different titles for a ticket. */
  lemma TiesHappen() returns (s: Snapshot, t: Snapshot)
    ensures !OrderDoesNotMatter([s, t], {})
  {
    var at := Stamp("", 0);
    var endpoint := Endpoint("docs", Repo, "", "", "repo", "");
    var one, two := Item("T", "a", "", [], at), Item("T", "b", "", [], at);
    s, t := Snapshot(endpoint, None, at, [one]), Snapshot(endpoint, None, at, [two]);
    assert Text.Trim("T") == "T" && Text.Trim("a") == "a" && Text.Trim("b") == "b";
    var x, y := CandidateOf(s, one, {}).value, CandidateOf(t, two, {}).value;
    OneCandidate(s, one, x);
    OneCandidate(t, two, y);
    Lex.LessTotal("docs", "docs");
    TiesShow(s, t, x, y, {});
  }

  lemma OneCandidate(s: Snapshot, item: Item, c: Candidate)
    requires s.error.None? && s.tickets == [item] && CandidateOf(s, item, {}) == Some(c)
    ensures SnapshotCandidates(s, {}) == [c]
  {
    assert s.tickets[..0] == [] && ItemCandidates(s, [], {}) == [];
    assert ItemCandidates(s, [item], {}) == [] + Listed(Some(c));
  }

  // ----- Keys -----

  /** Two joins that are equal and cut at different places share the segment between the cuts. */
  lemma CutShift(u: string, v: string, x: string, y: string)
    requires u + "|" + x == v + "|" + y && |u| > |v|
    ensures u == v + "|" + u[|v| + 1..] && y == u[|v| + 1..] + "|" + x
  {
    var s, t := u + "|" + x, v + "|" + y;
    assert s[..|u|] == u && t[..|v|] == v && t[|v|] == '|' && t[|v| + 1..] == y;
    assert u[..|v|] == v && u[|v|] == '|';
    assert y == s[|v| + 1..] == u[|v| + 1..] + "|" + x;
  }

  lemma CutSame(u: string, v: string, x: string, y: string)
    requires u + "|" + x == v + "|" + y && |u| == |v|
    ensures u == v && x == y
  {
    var s, t := u + "|" + x, v + "|" + y;
    assert s[..|u|] == u && t[..|v|] == v;
    assert s[|u| + 1..] == x && t[|v| + 1..] == y;
  }

  lemma LastPart(x: string, y: string, p: bool, q: bool)
    requires x + "|" + BoolKey(p) == y + "|" + BoolKey(q)
    ensures x == y && p == q
  {
    var s, t := x + "|" + BoolKey(p), y + "|" + BoolKey(q);
    assert s[|s| - 7] == if p then '|' else 'n';
    assert t[|t| - 7] == if q then '|' else 'n';
    assert s[..|s| - |BoolKey(p)| - 1] == x && t[..|t| - |BoolKey(q)| - 1] == y;
  }

  /** The ticket of `a` goes on, after what it shares with that of `b`, with a bar and a segment that casing leaves alone; and
      the repository of `b` is that segment, a bar and the repository of `a`. */
  predicate Shifted(a: Candidate, b: Candidate) {
    var u, v := Text.Upper(a.ticket), Text.Upper(b.ticket);
    |u| > |v| &&
    var segment := u[|v| + 1..];
    && u == v + "|" + segment && Text.Lower(b.docHomeRepo) == segment + "|" + Text.Lower(a.docHomeRepo)
    && Text.Upper(segment) == segment && Text.Lower(segment) == segment
  }

  lemma CasedParts(a: string, b: string, n: nat, m: nat)
    requires n <= |a| && m <= |b|
    ensures Text.Upper(Text.Upper(a)[n..]) == Text.Upper(a)[n..] && Text.Lower(Text.Lower(b)[..m]) == Text.Lower(b)[..m]
  {
  }

  lemma EqualKeysShift(a: Candidate, b: Candidate)
    requires Key(a) == Key(b) && |a.ticket| > |b.ticket|
    ensures a.active == b.active && Shifted(a, b)
  {
    var u, v := Text.Upper(a.ticket), Text.Upper(b.ticket);
    var x, y := Text.Lower(a.docHomeRepo), Text.Lower(b.docHomeRepo);
    LastPart(u + "|" + x, v + "|" + y, a.active, b.active);
    CutShift(u, v, x, y);
    var segment := u[|v| + 1..];
    assert y[..|segment|] == segment;
    CasedParts(a.ticket, b.docHomeRepo, |v| + 1, |segment|);
  }

  lemma ShiftedKeys(a: Candidate, b: Candidate)
    requires a.active == b.active && Shifted(a, b)
    ensures Key(a) == Key(b)
  {
    var u, v := Text.Upper(a.ticket), Text.Upper(b.ticket);
    var segment := u[|v| + 1..];
    assert (v + "|" + segment) + "|" + Text.Lower(a.docHomeRepo) == v + "|" + (segment + "|" + Text.Lower(a.docHomeRepo));
  }

  /** Exactly when tickets that differ in ticket, repository or activity share a key: the same activity, and one's ticket and the
      other's repository overlap in a bar. */
  lemma KeysCollideExactly(a: Candidate, b: Candidate)
    ensures Key(a) == Key(b) && !SameKeyParts(a, b) <==> a.active == b.active && (Shifted(a, b) || Shifted(b, a))
  {
    if Key(a) == Key(b) {
      if |a.ticket| > |b.ticket| {
        EqualKeysShift(a, b);
      } else if |b.ticket| > |a.ticket| {
        EqualKeysShift(b, a);
      } else {
        SameLengthSameParts(a, b);
      }
    }
    if a.active == b.active && Shifted(a, b) { ShiftedKeys(a, b); }
    if a.active == b.active && Shifted(b, a) { ShiftedKeys(b, a); }
  }

  lemma SameLengthSameParts(a: Candidate, b: Candidate)
    requires Key(a) == Key(b) && |a.ticket| == |b.ticket|
    ensures SameKeyParts(a, b)
  {
    var u, v := Text.Upper(a.ticket), Text.Upper(b.ticket);
    var x, y := Text.Lower(a.docHomeRepo), Text.Lower(b.docHomeRepo);
    LastPart(u + "|" + x, v + "|" + y, a.active, b.active);
    CutSame(u, v, x, y);
  }

  /** So without a bar in either ticket the key stands for ticket, repository and activity. */
  lemma KeyIsPair(a: Candidate, b: Candidate)
    requires '|' !in a.ticket && '|' !in b.ticket
    ensures Key(a) == Key(b) <==> SameKeyParts(a, b)
  {
    KeysCollideExactly(a, b);
    BarsStay(a.ticket, |b.ticket|);
    BarsStay(b.ticket, |a.ticket|);
  }

  lemma BarsStay(s: string, i: nat)
    ensures i < |s| && Text.Upper(s)[i] == '|' ==> s[i] == '|'
  {
  }

  lemma SamePartsSameKey(a: Candidate, b: Candidate)
    ensures SameKeyParts(a, b) ==> Key(a) == Key(b)
  {
  }

  /** Of the tickets that share a key a merge lists one only. */
  lemma OneTicketPerKey(tickets: seq<Candidate>, snapshots: seq<Snapshot>, contexts: seq<Context>, a: Candidate, b: Candidate)
    requires IsMerge(tickets, snapshots, contexts) && Key(a) == Key(b) && a in tickets && b in tickets
    ensures a == b
  {
    BestIsKeyed(Candidates(snapshots, ActiveKeys(contexts)));
  }

  /** With a bar, a ticket can be lost: of two endpoints with one ticket each, of different tickets and repositories, every merge
      lists one ticket only. */
  lemma CollisionLosesATicket() returns (s: Snapshot, t: Snapshot, x: Candidate, y: Candidate)
    ensures SnapshotCandidates(s, {}) == [x] && SnapshotCandidates(t, {}) == [y]
    ensures x.ticket == "1|2" && y.ticket == "1" && x.docHomeRepo == "3" && y.docHomeRepo == "2|3"
    ensures forall tickets: seq<Candidate> :: IsMerge(tickets, [s, t], []) ==> !(x in tickets && y in tickets) && (x in tickets || y in tickets)
  {
    var at := Stamp("", 0);
    var one, two := Item("1|2", "a", "", [], at), Item("1", "b", "", [], at);
    s := Snapshot(Endpoint("p", Repo, "", "", "3", ""), None, at, [one]);
    t := Snapshot(Endpoint("q", Repo, "", "", "2|3", ""), None, at, [two]);
    assert Text.Trim("1|2") == "1|2" && Text.Trim("1") == "1" && Text.Trim("3") == "3" && Text.Trim("2|3") == "2|3";
    x, y := CandidateOf(s, one, {}).value, CandidateOf(t, two, {}).value;
    OneCandidate(s, one, x);
    OneCandidate(t, two, y);
    TwoCandidates(s, t, x, y, {});
    BarKeys(x, y);
    forall tickets: seq<Candidate> | IsMerge(tickets, [s, t], [])
      ensures !(x in tickets && y in tickets) && (x in tickets || y in tickets)
    {
      if x in tickets && y in tickets { OneTicketPerKey(tickets, [s, t], [], x, y); }
      OneIsListed(tickets, [s, t], x, y);
    }
  }

  lemma BarKeys(x: Candidate, y: Candidate)
    requires x.ticket == "1|2" && y.ticket == "1" && x.docHomeRepo == "3" && y.docHomeRepo == "2|3" && x.active == y.active
    ensures Key(x) == Key(y)
  {
    assert Text.Upper("1|2") == "1|2" && Text.Upper("1") == "1" && Text.Lower("3") == "3" && Text.Lower("2|3") == "2|3";
    assert PairKey("1|2", "3") == PairKey("1", "2|3");
  }

  lemma SomethingIsListed(tickets: seq<Candidate>, snapshots: seq<Snapshot>, contexts: seq<Context>, c: Candidate) returns (kept: Candidate)
    requires IsMerge(tickets, snapshots, contexts) && c in Candidates(snapshots, ActiveKeys(contexts))
    ensures kept in tickets && kept in Candidates(snapshots, ActiveKeys(contexts))
  {
    var candidates := Candidates(snapshots, ActiveKeys(contexts));
    PickIsMember(candidates, Key(c));
    kept := Pick(candidates, Key(c)).value;
    assert kept in Best(candidates).Values;
  }

  lemma OneIsListed(tickets: seq<Candidate>, snapshots: seq<Snapshot>, x: Candidate, y: Candidate)
    requires IsMerge(tickets, snapshots, []) && Candidates(snapshots, {}) == [x, y]
    ensures x in tickets || y in tickets
  {
    assert x in [x, y];
    var kept := SomethingIsListed(tickets, snapshots, [], x);
    assert kept in [x, y];
  }

  // ----- The health list -----

  datatype Health = Health(endpoint: Endpoint, reachable: bool, indexedAt: string, errorText: string)

  function HealthOf(s: Snapshot): Health {
    Health(s.endpoint, s.error.None?, s.indexedAt.raw, if s.error.Some? then s.error.value else "")
  }

  function HealthEntries(snapshots: seq<Snapshot>): (entries: seq<Health>)
    ensures |entries| == |snapshots|
  {
    if |snapshots| == 0 then [] else HealthEntries(snapshots[..|snapshots| - 1]) + [HealthOf(snapshots[|snapshots| - 1])]
  }

  /** Workspaces come first, and then names decide. */
  predicate HealthBefore(a: Health, b: Health) {
    if a.endpoint.kind != b.endpoint.kind then a.endpoint.kind == Workspace else Lex.Less(a.endpoint.name, b.endpoint.name)
  }

  predicate Ties(a: Health, b: Health) {
    a.endpoint.kind == b.endpoint.kind && a.endpoint.name == b.endpoint.name
  }

  lemma HealthOrder(a: Health, b: Health, c: Health)
    ensures !HealthBefore(a, b) && !HealthBefore(b, a) <==> Ties(a, b)
    ensures !HealthBefore(b, a) && !HealthBefore(c, b) ==> !HealthBefore(c, a)
    ensures !(HealthBefore(a, b) && HealthBefore(b, a))
  {
    var x, y, z := a.endpoint.name, b.endpoint.name, c.endpoint.name;
    Lex.LessTotal(x, y);
    Lex.LessTotal(y, z);
    Lex.LessTotal(z, x);
    if Lex.Less(x, y) && Lex.Less(y, z) { Lex.LessTransitive(x, y, z); }
  }

  ghost predicate HealthSorted(health: seq<Health>) {
    forall i, j :: 0 <= i < j < |health| ==> !HealthBefore(health[j], health[i])
  }

  /** A health list: one entry for each snapshot, sorted. */
  ghost predicate IsHealth(health: seq<Health>, snapshots: seq<Snapshot>) {
    HealthSorted(health) && multiset(health) == multiset(HealthEntries(snapshots))
  }

  /** Endpoints of one kind and name report the same. */
  ghost predicate TiesAgree(health: seq<Health>) {
    forall a, b :: a in health && b in health && Ties(a, b) ==> a == b
  }

  lemma SameMembers(a: seq<Health>, b: seq<Health>)
    requires multiset(a) == multiset(b)
    ensures |a| == |b| && forall h :: h in a <==> h in b
  {
    assert |a| == |multiset(a)| == |multiset(b)| == |b|;
    forall h ensures h in a <==> h in b { assert h in a <==> h in multiset(a); }
  }

  /** Two sorted lists of the same entries begin with entries that tie. */
  lemma SortedHeadsTie(a: seq<Health>, b: seq<Health>)
    requires HealthSorted(a) && HealthSorted(b) && multiset(a) == multiset(b) && |a| > 0
    ensures |b| > 0 && a[0] in b && Ties(a[0], b[0])
  {
    SameMembers(a, b);
    assert a[0] in a && b[0] in b;
    HealthOrder(a[0], b[0], a[0]);
  }

  lemma TailsAlike(a: seq<Health>, b: seq<Health>)
    requires |a| > 0 && |b| > 0 && a[0] == b[0] && multiset(a) == multiset(b)
    ensures multiset(a[1..]) == multiset(b[1..])
  {
    assert a == [a[0]] + a[1..] && b == [b[0]] + b[1..];
    assert multiset(a[1..]) == multiset(a) - multiset{a[0]};
    assert multiset(b[1..]) == multiset(b) - multiset{b[0]};
  }

  /** Two sorted lists of the same entries are equal, when entries that tie are. */
  lemma {:induction false} HealthIsUnique(a: seq<Health>, b: seq<Health>)
    requires HealthSorted(a) && HealthSorted(b) && multiset(a) == multiset(b) && TiesAgree(b)
    ensures a == b
    decreases |a|
  {
    SameMembers(a, b);
    if |a| > 0 {
      SortedHeadsTie(a, b);
      assert a[0] == b[0];
      TailsAlike(a, b);
      HealthIsUnique(a[1..], b[1..]);
      assert a == [a[0]] + a[1..] && b == [b[0]] + b[1..];
    }
  }

  /** One entry for each snapshot, unreachable with its error or reachable without; workspaces first, and those of one kind by
      name. */
  lemma HealthMeaning(health: seq<Health>, snapshots: seq<Snapshot>)
    requires IsHealth(health, snapshots)
    ensures |health| == |snapshots|
    ensures forall h :: h in health <==> exists s :: s in snapshots && Reports(h, s)
    ensures forall i, j :: 0 <= i < j < |health| ==>
              var a, b := health[i].endpoint, health[j].endpoint;
              (b.kind == Workspace ==> a.kind == Workspace) && (a.kind == b.kind ==> !Lex.Less(b.name, a.name))
  {
    SameMembers(health, HealthEntries(snapshots));
    forall h ensures h in health <==> exists s :: s in snapshots && Reports(h, s) { EntriesReport(snapshots, h); }
    forall i, j | 0 <= i < j < |health|
      ensures health[j].endpoint.kind == Workspace ==> health[i].endpoint.kind == Workspace
      ensures health[i].endpoint.kind == health[j].endpoint.kind ==> !Lex.Less(health[j].endpoint.name, health[i].endpoint.name)
    {
      assert !HealthBefore(health[j], health[i]);
    }
  }

  predicate Reports(h: Health, s: Snapshot) {
    h.endpoint == s.endpoint && h.indexedAt == s.indexedAt.raw &&
    match s.error case None => h.reachable && h.errorText == "" case Some(text) => !h.reachable && h.errorText == text
  }

  lemma {:induction false} EntriesReport(snapshots: seq<Snapshot>, h: Health)
    ensures h in HealthEntries(snapshots) <==> exists s :: s in snapshots && Reports(h, s)
  {
    if |snapshots| > 0 {
      var before, last := snapshots[..|snapshots| - 1], snapshots[|snapshots| - 1];
      EntriesReport(before, h);
      assert snapshots == before + [last];
      assert h == HealthOf(last) <==> Reports(h, last);
    }
  }

  /** Two entries that tie can change places. */
  lemma SwapTies(health: seq<Health>, i: nat, j: nat, swapped: seq<Health>)
    requires i < |health| && j < |health| && Ties(health[i], health[j]) && HealthSorted(health)
    requires swapped == health[i := health[j]][j := health[i]]
    ensures multiset(swapped) == multiset(health) && HealthSorted(swapped)
  {
    TiesStaySorted(health, swapped);
  }

  lemma TiesStaySorted(health: seq<Health>, other: seq<Health>)
    requires HealthSorted(health) && |other| == |health| && forall k :: 0 <= k < |health| ==> Ties(other[k], health[k])
    ensures HealthSorted(other)
  {
    forall k, m | 0 <= k < m < |other|
      ensures !HealthBefore(other[m], other[k])
    {
      assert !HealthBefore(health[m], health[k]) && Ties(other[k], health[k]) && Ties(other[m], health[m]);
    }
  }

  lemma TieShows(health: seq<Health>) returns (other: seq<Health>)
    requires HealthSorted(health) && !TiesAgree(health)
    ensures HealthSorted(other) && multiset(other) == multiset(health) && other != health
  {
    var a, b :| a in health && b in health && Ties(a, b) && a != b;
    var i: nat :| i < |health| && health[i] == a;
    var j: nat :| j < |health| && health[j] == b;
    other := health[i := health[j]][j := health[i]];
    SwapTies(health, i, j, other);
    assert other[i] == b;
  }

  lemma TiesAgreeAlike(a: seq<Health>, b: seq<Health>)
    requires multiset(a) == multiset(b) && TiesAgree(a)
    ensures TiesAgree(b)
  {
    SameMembers(a, b);
  }

  /** The sort is not stable. The list is determined by the snapshots exactly when endpoints of one kind and name report the same. */
  lemma HealthIsDeterminedExactly(health: seq<Health>, snapshots: seq<Snapshot>)
    requires IsHealth(health, snapshots)
    ensures (forall other :: IsHealth(other, snapshots) ==> other == health) <==> TiesAgree(HealthEntries(snapshots))
  {
    if TiesAgree(HealthEntries(snapshots)) {
      TiesAgreeAlike(HealthEntries(snapshots), health);
      forall other | IsHealth(other, snapshots)
        ensures other == health
      {
        HealthIsUnique(other, health);
      }
    } else {
      if TiesAgree(health) { TiesAgreeAlike(health, HealthEntries(snapshots)); }
      var other := TieShows(health);
      assert IsHealth(other, snapshots);
    }
  }

  // ----- The merge itself -----

  lemma CandidatesPrefix(snapshots: seq<Snapshot>, i: nat, active: set<string>)
    requires i < |snapshots|
    ensures Candidates(snapshots[..i + 1], active) == Candidates(snapshots[..i], active) + SnapshotCandidates(snapshots[i], active)
  {
    assert snapshots[..i + 1][..i] == snapshots[..i];
  }

  lemma BestSnoc(candidates: seq<Candidate>, c: Candidate)
    ensures Best(candidates + [c]) == Improve(Best(candidates), c)
  {
    assert (candidates + [c])[..|candidates|] == candidates;
  }

  method CollectActive(contexts: seq<Context>) returns (active: set<string>)
    ensures active == ActiveKeys(contexts)
  {
    active := {};
    for i := 0 to |contexts|
      invariant active == ActiveKeys(contexts[..i])
    {
      assert contexts[..i + 1][..i] == contexts[..i];
      var ticket := Text.Trim(contexts[i].ticket);
      var repo := Text.Trim(contexts[i].docHomeRepo);
      if ticket == "" || repo == "" { continue; }
      active := active + {PairKey(ticket, repo)};
    }
    assert contexts[..|contexts|] == contexts;
  }

  /** One item more: a blank ticket changes nothing, another may improve its key. */
  lemma BestListed(seen: seq<Candidate>, taken: seq<Candidate>, c: Option<Candidate>)
    ensures Best(seen + (taken + Listed(c))) == if c.None? then Best(seen + taken) else Improve(Best(seen + taken), c.value)
  {
    if c.None? {
      assert taken + [] == taken;
    } else {
      BestSnoc(seen + taken, c.value);
      assert seen + (taken + [c.value]) == (seen + taken) + [c.value];
    }
  }

  lemma ItemsSnoc(s: Snapshot, i: nat, active: set<string>)
    requires i < |s.tickets|
    ensures ItemCandidates(s, s.tickets[..i + 1], active) == ItemCandidates(s, s.tickets[..i], active) + Listed(CandidateOf(s, s.tickets[i], active))
  {
    assert s.tickets[..i + 1][..i] == s.tickets[..i];
  }

  method MergeItems(s: Snapshot, active: set<string>, before: map<string, Candidate>, ghost seen: seq<Candidate>)
    returns (byKey: map<string, Candidate>)
    requires before == Best(seen)
    ensures byKey == Best(seen + ItemCandidates(s, s.tickets, active))
  {
    byKey := before;
    assert seen + [] == seen;
    for i := 0 to |s.tickets|
      invariant byKey == Best(seen + ItemCandidates(s, s.tickets[..i], active))
    {
      var candidate := CandidateOf(s, s.tickets[i], active);
      ItemsSnoc(s, i, active);
      BestListed(seen, ItemCandidates(s, s.tickets[..i], active), candidate);
      if candidate.None? { continue; }
      var key := Key(candidate.value);
      if key !in byKey || Preferred(candidate.value, byKey[key]) {
        byKey := byKey[key := candidate.value];
      }
    }
    assert s.tickets[..|s.tickets|] == s.tickets;
  }

  method Collect(snapshots: seq<Snapshot>, active: set<string>) returns (byKey: map<string, Candidate>)
    ensures byKey == Best(Candidates(snapshots, active))
  {
    byKey := map[];
    for i := 0 to |snapshots|
      invariant byKey == Best(Candidates(snapshots[..i], active))
    {
      CandidatesPrefix(snapshots, i, active);
      ghost var seen := Candidates(snapshots[..i], active);
      assert seen + [] == seen;
      if snapshots[i].error.Some? { continue; }
      byKey := MergeItems(snapshots[i], active, byKey, seen);
    }
    assert snapshots[..|snapshots|] == snapshots;
  }

  /** Puts a ticket in its place in a sorted list. */
  method InsertSorted(tickets: seq<Candidate>, c: Candidate) returns (inserted: seq<Candidate>)
    requires Sorted(tickets) && forall other <- tickets :: !SameKeyParts(c, other)
    ensures Sorted(inserted) && forall other :: other in inserted <==> other in tickets || other == c
  {
    var i := 0;
    while i < |tickets| && Before(tickets[i], c)
      invariant 0 <= i <= |tickets|
      invariant forall j :: 0 <= j < i ==> Before(tickets[j], c)
    {
      i := i + 1;
    }
    inserted := tickets[..i] + [c] + tickets[i..];
    assert tickets == tickets[..i] + tickets[i..];
    forall j | i <= j < |tickets|
      ensures Before(c, tickets[j])
    {
      assert tickets[i] in tickets;
      BeforeIsStrict(tickets[i], c);
      if j > i { BeforeIsTransitive(c, tickets[i], tickets[j]); }
    }
  }

  /** Puts an entry in its place in a sorted health list. */
  method InsertHealth(health: seq<Health>, h: Health) returns (inserted: seq<Health>)
    requires HealthSorted(health)
    ensures HealthSorted(inserted) && multiset(inserted) == multiset(health) + multiset{h}
  {
    var i := |health|;
    while i > 0 && HealthBefore(h, health[i - 1])
      invariant 0 <= i <= |health|
      invariant forall j :: i <= j < |health| ==> HealthBefore(h, health[j])
    {
      i := i - 1;
    }
    assert health == health[..i] + health[i..];
    InsertedHealth(health, i, h);
    inserted := health[..i] + [h] + health[i..];
  }

  lemma InsertedHealth(health: seq<Health>, i: nat, h: Health)
    requires HealthSorted(health) && i <= |health| && (i > 0 ==> !HealthBefore(h, health[i - 1]))
    requires forall j :: i <= j < |health| ==> HealthBefore(h, health[j])
    ensures HealthSorted(health[..i] + [h] + health[i..])
  {
    forall j | 0 <= j < i
      ensures !HealthBefore(h, health[j])
    {
      HealthOrder(health[j], health[i - 1], h);
    }
    forall j | i <= j < |health|
      ensures !HealthBefore(health[j], h)
    {
      HealthOrder(h, health[j], h);
    }
  }

  /** The entries of the snapshots, sorted. */
  method CollectHealth(snapshots: seq<Snapshot>) returns (health: seq<Health>)
    ensures IsHealth(health, snapshots)
  {
    health := [];
    for i := 0 to |snapshots|
      invariant IsHealth(health, snapshots[..i])
    {
      assert snapshots[..i + 1][..i] == snapshots[..i];
      health := InsertHealth(health, HealthOf(snapshots[i]));
    }
    assert snapshots[..|snapshots|] == snapshots;
  }

  /** MergeWorkspaceFirst. */
  method MergeWorkspaceFirst(snapshots: seq<Snapshot>, contexts: seq<Context>) returns (tickets: seq<Candidate>, health: seq<Health>)
    ensures IsMerge(tickets, snapshots, contexts) && IsHealth(health, snapshots)
  {
    var active := CollectActive(contexts);
    var byKey := Collect(snapshots, active);
    BestIsKeyed(Candidates(snapshots, active));
    tickets := [];
    var remaining := byKey.Keys;
    while remaining != {}
      invariant remaining <= byKey.Keys && Sorted(tickets)
      invariant forall c :: c in tickets <==> exists key :: key in byKey.Keys - remaining && byKey[key] == c
    {
      var key :| key in remaining;
      var best := byKey[key];
      forall other <- tickets
        ensures !SameKeyParts(best, other)
      {
        SamePartsSameKey(best, other);
      }
      tickets := InsertSorted(tickets, best);
      remaining := remaining - {key};
    }
    health := CollectHealth(snapshots);
  }
}
