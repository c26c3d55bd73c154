/** Review feedback: syncing review comments from pull requests, and the status each record moves through.
    Tickets and repositories are strings the caller has trimmed. */
module ReviewFeedback {
  import opened Options
  import opened ReviewKeys
  import Lex
  import Text

  datatype Status = Blank | Queued | New | Addressed | Ignored

  /** What a remote item says, trimmed. */
  datatype Content = Content(url: string, author: string, body: string, path: string, line: int)

  datatype Record = Record(content: Content, status: Status, createdAt: int, lastSeenAt: int, addressedAt: Option<int>)

  /** `submittedAt` is known for reviews only. */
  datatype Item = Item(sourceType: SourceType, id: int, content: Content, submittedAt: Option<int>)

  datatype Remote = BadUrl | FetchFails | Fetched(comments: seq<Item>, reviews: seq<Item>)

  /** An open pull request of the run, and what asking for its comments and reviews yields. */
  datatype Pull = Pull(ticket: string, repo: string, number: int, remote: Remote)

  type Table = map<Key, Record>

  // ----- One pass -----

  function KeyOf(pull: Pull, item: Item): Key {
    Key(pull.ticket, pull.repo, pull.number, item.sourceType, item.id)
  }

  predicate IsIgnored(ignored: set<string>, item: Item) {
    var author := Text.Lower(Text.Trim(item.content.author));
    author != "" && author in ignored
  }

  function RecordOf(existing: Option<Record>, item: Item, now: int): Record {
    match existing
    case Some(known) =>
      Record(item.content, if known.status == Blank then Queued else known.status, known.createdAt, now, known.addressedAt)
    case None =>
      Record(item.content, Queued, if item.submittedAt.Some? then item.submittedAt.value else now, now, None)
  }

  function Lookup<K>(table: map<K, Record>, key: K): Option<Record> {
    if key in table then Some(table[key]) else None
  }

  /** What a pass looks records up in: one record for each joined key, here for what the joined key tells. */
  type Index = map<Joint, Record>

  /** A pass under way: the table, the pass's own index of what exists, what it may still write, what it has written, and
      whether a write has failed, which ends it. */
  datatype Pass = Pass(table: Table, existing: Index, remaining: int, added: nat, updated: nat, written: seq<Key>, failed: bool)

  /** `lands` tells of each write of the pass, by number, whether it succeeds; a dry run makes none. */
  datatype Sync = Sync(ignored: set<string>, dryRun: bool, now: int, lands: nat -> bool)

  predicate WriteLands(sync: Sync, n: nat) {
    sync.dryRun || sync.lands(n)
  }

  function SyncItem(pass: Pass, sync: Sync, pull: Pull, item: Item): Pass {
    if IsIgnored(sync.ignored, item) || pass.remaining <= 0 || pass.failed then pass
    else if !WriteLands(sync, |pass.written|) then pass.(failed := true)
    else
      var key := KeyOf(pull, item);
      var existing := Lookup(pass.existing, JointOf(key));
      var record := RecordOf(existing, item, sync.now);
      var changed := existing.Some? && existing.value != record;
      Pass(if sync.dryRun then pass.table else pass.table[key := record],
           pass.existing[JointOf(key) := record],
           pass.remaining - 1,
           pass.added + if existing.None? then 1 else 0,
           pass.updated + if changed then 1 else 0,
           pass.written + [key],
           false)
  }

  function SyncItems(pass: Pass, sync: Sync, pull: Pull, items: seq<Item>): Pass {
    if |items| == 0 then pass else SyncItem(SyncItems(pass, sync, pull, items[..|items| - 1]), sync, pull, items[|items| - 1])
  }

  function ItemsOf(pull: Pull): seq<Item> {
    if pull.remote.Fetched? then pull.remote.comments + pull.remote.reviews else []
  }

  /** A pull request is asked only while something may still be written; when asking fails, the pass ends. */
  predicate Aborts(pass: Pass, pull: Pull) {
    pass.remaining > 0 && pull.remote.FetchFails?
  }

  datatype Outcome = Outcome(pass: Pass, ok: bool)

  function SyncPulls(pass: Pass, sync: Sync, pulls: seq<Pull>): Outcome {
    if |pulls| == 0 then Outcome(pass, true)
    else
      var before := SyncPulls(pass, sync, pulls[..|pulls| - 1]);
      var pull := pulls[|pulls| - 1];
      if !before.ok || Aborts(before.pass, pull) then Outcome(before.pass, false)
      else
        var pass := SyncItems(before.pass, sync, pull, ItemsOf(pull));
        Outcome(pass, !pass.failed)
  }

  /** The cap of a pass: the policy's, or the requested one when it is lower. */
  function Cap(policyCap: int, requested: int): int {
    if 0 < requested < policyCap then requested else policyCap
  }

  function Begin(table: Table, index: Index, cap: int): Pass {
    Pass(table, index, cap, 0, 0, [], false)
  }

  /** Of the rows of one joined key the one listed last counts: the store lists rows by ticket, so it is the one with the
      longest ticket. */
  ghost predicate ListedLast(seen: Table, key: Key) {
    key in seen && forall other <- seen :: JointOf(other) == JointOf(key) ==> |other.ticket| <= |key.ticket|
  }

  /** What the rows of a table are indexed as. */
  ghost predicate IsIndex(index: Index, seen: Table) {
    && (forall key <- seen :: JointOf(key) in index)
    && (forall j <- index :: exists key :: ListedLast(seen, key) && JointOf(key) == j && index[j] == seen[key])
  }

  lemma IndexHasLast(index: Index, seen: Table, key: Key)
    requires IsIndex(index, seen) && ListedLast(seen, key)
    ensures JointOf(key) in index && index[JointOf(key)] == seen[key]
  {
    var j := JointOf(key);
    var last :| ListedLast(seen, last) && JointOf(last) == j && index[j] == seen[last];
    LongerIsLater(key, last);
  }

  /** One row more, listed after those with a shorter ticket. */
  lemma IndexGrows(index: Index, seen: Table, key: Key, record: Record)
    requires IsIndex(index, seen) && key !in seen
    requires forall other <- seen :: JointOf(other) == JointOf(key) ==> |other.ticket| <= |key.ticket|
    ensures IsIndex(index[JointOf(key) := record], seen[key := record])
  {
    var index', seen' := index[JointOf(key) := record], seen[key := record];
    assert ListedLast(seen', key);
    forall j <- index'
      ensures exists last :: ListedLast(seen', last) && JointOf(last) == j && index'[j] == seen'[last]
    {
      if j == JointOf(key) {
        assert index'[j] == seen'[key];
      } else {
        var last :| ListedLast(seen, last) && JointOf(last) == j && index[j] == seen[last];
        assert ListedLast(seen', last) && index'[j] == seen'[last];
      }
    }
  }

  /** A whole pass; `index` is what it read when it began. */
  function Synced(table: Table, index: Index, sync: Sync, pulls: seq<Pull>, cap: int): Outcome {
    SyncPulls(Begin(table, index, cap), sync, pulls)
  }

  // ----- What every item of a pass keeps -----

  /** A relation between passes that holds of a step and chains holds of every pass. */
  predicate CountsWritten(start: Pass, pass: Pass) {
    |pass.written| - |start.written| == start.remaining - pass.remaining && (start.remaining >= 0 ==> pass.remaining >= 0)
  }

  lemma {:induction false} ItemsCount(pass: Pass, sync: Sync, pull: Pull, items: seq<Item>)
    ensures CountsWritten(pass, SyncItems(pass, sync, pull, items))
  {
    if |items| > 0 { ItemsCount(pass, sync, pull, items[..|items| - 1]); }
  }

  lemma {:induction false} PullsCount(pass: Pass, sync: Sync, pulls: seq<Pull>)
    ensures CountsWritten(pass, SyncPulls(pass, sync, pulls).pass)
  {
    if |pulls| > 0 {
      var before, pull := SyncPulls(pass, sync, pulls[..|pulls| - 1]), pulls[|pulls| - 1];
      PullsCount(pass, sync, pulls[..|pulls| - 1]);
      ItemsCount(before.pass, sync, pull, ItemsOf(pull));
    }
  }

  /** A pass writes at most its cap, which is the policy's or, when that is lower and positive, the requested one. */
  lemma PassIsCapped(table: Table, index: Index, sync: Sync, pulls: seq<Pull>, policyCap: int, requested: int)
    requires Cap(policyCap, requested) > 0
    ensures var cap, written := Cap(policyCap, requested), Synced(table, index, sync, pulls, Cap(policyCap, requested)).pass.written;
            && |written| <= cap <= policyCap && (requested > 0 ==> cap <= requested)
            && (cap == policyCap || (cap == requested && 0 < requested < policyCap))
  {
    PullsCount(Begin(table, index, Cap(policyCap, requested)), sync, pulls);
  }

  // ----- What a pass leaves -----

  /** The part of a record that a pass carries over from the record it looked up. */
  datatype Life = Life(status: Status, createdAt: int, addressedAt: Option<int>)

  function LifeOf(r: Record): Life {
    Life(if r.status == Blank then Queued else r.status, r.createdAt, r.addressedAt)
  }

  predicate Fresh(life: Life) {
    life.status == Queued && life.addressedAt == None
  }

  /** The records written live on as the ones looked up, and the rest of the table is as it was. */
  ghost predicate WroteLives(table: Table, pass: Pass) {
    && (forall key <- pass.written :: key in pass.table && JointOf(key) in pass.existing && pass.table[key].status != Blank &&
          LifeOf(pass.table[key]) == LifeOf(pass.existing[JointOf(key)]))
    && (forall key :: key !in pass.written ==> Lookup(pass.table, key) == Lookup(table, key))
  }

  /** What is looked up lives on as it was read, or is fresh where nothing was read. */
  ghost predicate KeptLives(index: Index, existing: Index) {
    && (forall j :: j in index ==> j in existing && LifeOf(existing[j]) == LifeOf(index[j]))
    && (forall j :: j in existing && j !in index ==> Fresh(LifeOf(existing[j])))
  }

  ghost predicate CarriesLives(table: Table, index: Index, pass: Pass) {
    WroteLives(table, pass) && KeptLives(index, pass.existing)
  }

  lemma RecordLives(existing: Option<Record>, item: Item, now: int)
    ensures var record := RecordOf(existing, item, now);
            record.status != Blank && if existing.Some? then LifeOf(record) == LifeOf(existing.value) else Fresh(LifeOf(record))
  {
  }

  lemma ItemCarriesLives(table: Table, index: Index, pass: Pass, sync: Sync, pull: Pull, item: Item)
    requires !sync.dryRun && CarriesLives(table, index, pass)
    ensures CarriesLives(table, index, SyncItem(pass, sync, pull, item))
  {
    var next, key := SyncItem(pass, sync, pull, item), KeyOf(pull, item);
    if next.written != pass.written {
      var existing := Lookup(pass.existing, JointOf(key));
      RecordLives(existing, item, sync.now);
      WriteCarriesLives(table, index, pass, key, RecordOf(existing, item, sync.now), next);
    }
  }

  lemma WriteCarriesLives(table: Table, index: Index, pass: Pass, key: Key, record: Record, next: Pass)
    requires CarriesLives(table, index, pass) && record.status != Blank
    requires if JointOf(key) in pass.existing then LifeOf(record) == LifeOf(pass.existing[JointOf(key)]) else Fresh(LifeOf(record))
    requires next.table == pass.table[key := record] && next.existing == pass.existing[JointOf(key) := record] && next.written == pass.written + [key]
    ensures CarriesLives(table, index, next)
  {
    forall k <- next.written
      ensures k in next.table && JointOf(k) in next.existing && next.table[k].status != Blank &&
              LifeOf(next.table[k]) == LifeOf(next.existing[JointOf(k)])
    {
      if k != key { assert k in pass.written; }
    }
    forall k | k !in next.written ensures Lookup(next.table, k) == Lookup(table, k) { assert k !in pass.written && k != key; }
  }

  lemma {:induction false} ItemsCarryLives(table: Table, index: Index, pass: Pass, sync: Sync, pull: Pull, items: seq<Item>)
    requires !sync.dryRun && CarriesLives(table, index, pass)
    ensures CarriesLives(table, index, SyncItems(pass, sync, pull, items))
  {
    if |items| > 0 {
      ItemsCarryLives(table, index, pass, sync, pull, items[..|items| - 1]);
      ItemCarriesLives(table, index, SyncItems(pass, sync, pull, items[..|items| - 1]), sync, pull, items[|items| - 1]);
    }
  }

  lemma {:induction false} PullsCarryLives(table: Table, index: Index, pass: Pass, sync: Sync, pulls: seq<Pull>)
    requires !sync.dryRun && CarriesLives(table, index, pass)
    ensures CarriesLives(table, index, SyncPulls(pass, sync, pulls).pass)
  {
    if |pulls| > 0 {
      PullsCarryLives(table, index, pass, sync, pulls[..|pulls| - 1]);
      var before, pull := SyncPulls(pass, sync, pulls[..|pulls| - 1]), pulls[|pulls| - 1];
      ItemsCarryLives(table, index, before.pass, sync, pull, ItemsOf(pull));
    }
  }

  /** The life a pass gives the record of a key it writes. */
  predicate GetsLife(index: Index, key: Key, life: Life) {
    if JointOf(key) in index then life == LifeOf(index[JointOf(key)]) else Fresh(life)
  }

  /** Every record a pass writes gets its life from the record looked up, and every other record stays. */
  predicate Lives(table: Table, index: Index, after: Table, written: seq<Key>, key: Key) {
    if key in written then key in after && after[key].status != Blank && GetsLife(index, key, LifeOf(after[key]))
    else Lookup(after, key) == Lookup(table, key)
  }

  lemma WrittenLives(table: Table, index: Index, sync: Sync, pulls: seq<Pull>, cap: int)
    requires !sync.dryRun
    ensures var pass := Synced(table, index, sync, pulls, cap).pass;
            forall key :: Lives(table, index, pass.table, pass.written, key)
  {
    PullsCarryLives(table, index, Begin(table, index, cap), sync, pulls);
    CarriedLives(table, index, Synced(table, index, sync, pulls, cap).pass);
  }

  lemma CarriedLives(table: Table, index: Index, pass: Pass)
    requires CarriesLives(table, index, pass)
    ensures forall key :: Lives(table, index, pass.table, pass.written, key)
  {
  }

  /** What a pass makes of a record that was there. */
  predicate Kept(before: Record, after: Record) {
    && (after.status == before.status || (before.status == Blank && after.status == Queued))
    && after.createdAt == before.createdAt && after.addressedAt == before.addressedAt
  }

  /** Records are kept, and those that are new were written and are queued. */
  predicate Extends(start: Table, table: Table, written: seq<Key>) {
    && (forall key <- start :: key in table && Kept(start[key], table[key]))
    && (forall key <- table :: key !in start ==> key in written && table[key].status == Queued && table[key].addressedAt == None)
    && (forall key <- written :: key in table)
  }

  lemma {:induction false} ItemsDry(pass: Pass, sync: Sync, pull: Pull, items: seq<Item>)
    requires sync.dryRun
    ensures SyncItems(pass, sync, pull, items).table == pass.table
  {
    if |items| > 0 { ItemsDry(pass, sync, pull, items[..|items| - 1]); }
  }

  lemma {:induction false} PullsDry(pass: Pass, sync: Sync, pulls: seq<Pull>)
    requires sync.dryRun
    ensures SyncPulls(pass, sync, pulls).pass.table == pass.table
  {
    if |pulls| > 0 {
      var before, pull := SyncPulls(pass, sync, pulls[..|pulls| - 1]), pulls[|pulls| - 1];
      PullsDry(pass, sync, pulls[..|pulls| - 1]);
      ItemsDry(before.pass, sync, pull, ItemsOf(pull));
    }
  }

  /** The record looked up under the key says of it what its own row says, or no more than that it is new. */
  predicate Faithful(table: Table, index: Index, key: Key) {
    var j := JointOf(key);
    j in index ==> if key in table then LifeOf(index[j]) == LifeOf(table[key]) else Fresh(LifeOf(index[j]))
  }

  /** What carries lives over keeps the table exactly if it looks each key it writes up faithfully. */
  lemma LivesKeepExactly(table: Table, index: Index, after: Table, written: seq<Key>)
    requires HasAll(index, table) && forall key :: Lives(table, index, after, written, key)
    ensures Extends(table, after, written) <==> forall key <- written :: Faithful(table, index, key)
  {
    forall key ensures Lives(table, index, after, written, key) {}
    if Extends(table, after, written) {
      forall key <- written ensures Faithful(table, index, key) {
        assert Lives(table, index, after, written, key);
        if key in table { assert Kept(table[key], after[key]); }
      }
    }
    if forall key <- written :: Faithful(table, index, key) {
      forall key <- written ensures key in after { assert Lives(table, index, after, written, key); }
      forall key <- table ensures key in after && Kept(table[key], after[key]) {
        assert Lives(table, index, after, written, key);
      }
      forall key <- after | key !in table ensures key in written && after[key].status == Queued && after[key].addressedAt == None {
        assert Lives(table, index, after, written, key);
      }
    }
  }

  /** The pass has looked up the table it writes to. */
  predicate HasAll(index: Index, table: Table) {
    forall key <- table :: JointOf(key) in index
  }

  /** A dry run changes nothing. A pass over a table nobody else touches, even one that fails half-way, removes no record, changes
      no status but a blank one, and only adds queued records, exactly if the lookup is faithful for each record it writes. */
  lemma PassKeepsExactly(table: Table, index: Index, sync: Sync, pulls: seq<Pull>, cap: int)
    requires HasAll(index, table)
    ensures var pass := Synced(table, index, sync, pulls, cap).pass;
            if sync.dryRun then pass.table == table
            else Extends(table, pass.table, pass.written) <==> forall key <- pass.written :: Faithful(table, index, key)
  {
    if sync.dryRun {
      PullsDry(Begin(table, index, cap), sync, pulls);
    } else {
      var pass := Synced(table, index, sync, pulls, cap).pass;
      WrittenLives(table, index, sync, pulls, cap);
      LivesKeepExactly(table, index, pass.table, pass.written);
    }
  }

  /** A pull request with one comment, which a pass of any cap writes. */
  function PullOf(key: Key): Pull {
    Pull(key.ticket, key.repo, key.prNumber, Fetched([Item(key.sourceType, key.sourceId, Content("", "", "", "", 0), None)], []))
  }

  lemma OneIsWritten(table: Table, index: Index, sync: Sync, key: Key)
    requires sync.dryRun || sync.lands(0)
    ensures Synced(table, index, sync, [PullOf(key)], 1).pass.written == [key]
  {
    var pull, item := PullOf(key), PullOf(key).remote.comments[0];
    var start := Begin(table, index, 1);
    assert [pull][..0] == [] && [item][..0] == [] && [item] + [] == [item];
    assert SyncItems(start, sync, pull, [item]) == SyncItem(start, sync, pull, item);
    assert SyncPulls(start, sync, [pull]).pass == SyncItem(start, sync, pull, item);
    assert !IsIgnored(sync.ignored, item) by { assert Text.Lower(Text.Trim("")) == ""; }
  }

  /** What the pass writes keeps the table. */
  predicate Keeps(table: Table, index: Index, sync: Sync, pulls: seq<Pull>, cap: int) {
    var pass := Synced(table, index, sync, pulls, cap).pass;
    Extends(table, pass.table, pass.written)
  }

  /** Exactly which tables every pass keeps, whatever the remote answers: those whose index is faithful for every key. */
  lemma EveryPassKeepsExactly(table: Table, index: Index, sync: Sync)
    requires !sync.dryRun && sync.lands(0) && HasAll(index, table)
    ensures (forall pulls: seq<Pull>, cap: int :: Keeps(table, index, sync, pulls, cap)) <==> forall key: Key :: Faithful(table, index, key)
  {
    if key: Key :| !Faithful(table, index, key) {
      OneIsWritten(table, index, sync, key);
      PassKeepsExactly(table, index, sync, [PullOf(key)], 1);
      assert !Keeps(table, index, sync, [PullOf(key)], 1);
    } else {
      forall pulls: seq<Pull>, cap: int ensures Keeps(table, index, sync, pulls, cap) {
        PassKeepsExactly(table, index, sync, pulls, cap);
      }
    }
  }

  predicate NoBars(table: Table) {
    forall key <- table :: BarFree(key)
  }

  /** A table without bars in its tickets and repositories is indexed faithfully, and so every pass keeps it. */
  lemma NoBarsIsFaithful(table: Table, index: Index, key: Key)
    requires NoBars(table) && IsIndex(index, table)
    ensures Faithful(table, index, key)
  {
    if JointOf(key) in index {
      var last :| ListedLast(table, last) && JointOf(last) == JointOf(key) && index[JointOf(key)] == table[last];
      BarFreeIsAlone(last, key);
    }
  }

  /** It happens: a comment of ticket a on repository b, c is recorded as addressed because another ticket has such a record. */
  lemma StatusCrosses(record: Record, index: Index, sync: Sync)
    requires record.status == Addressed && !sync.dryRun && sync.lands(0)
    requires IsIndex(index, map[Key("a|b", "c", 1, ReviewComment, 1) := record])
    ensures var there, here := Key("a|b", "c", 1, ReviewComment, 1), Key("a", "b|c", 1, ReviewComment, 1);
            var pass := Synced(map[there := record], index, sync, [PullOf(here)], 1).pass;
            here in pass.table && pass.table[here].status == Addressed && here != there
  {
    var there, here := Key("a|b", "c", 1, ReviewComment, 1), Key("a", "b|c", 1, ReviewComment, 1);
    var table := map[there := record];
    assert Names(there) == "a|b|c" == Names(here);
    assert ListedLast(table, there);
    IndexHasLast(index, table, there);
    OneIsWritten(table, index, sync, here);
    WrittenLives(table, index, sync, [PullOf(here)], 1);
    var pass := Synced(table, index, sync, [PullOf(here)], 1).pass;
    assert Lives(table, index, pass.table, pass.written, here);
  }

  // ----- What a pass writes -----

  /** The item's author, trimmed and in lower case, is one of these. */
  predicate HasAuthorIn(names: set<string>, item: Item) {
    Text.Trim(item.content.author) != "" && Text.Lower(Text.Trim(item.content.author)) in names
  }

  lemma IgnoredExactly(ignored: set<string>, item: Item)
    ensures IsIgnored(ignored, item) <==> HasAuthorIn(ignored, item)
  {
    assert |Text.Lower(Text.Trim(item.content.author))| == |Text.Trim(item.content.author)|;
  }

  /** The keys of a pull request's items that are not ignored, in order. */
  function WantedItems(ignored: set<string>, pull: Pull, items: seq<Item>): seq<Key> {
    if |items| == 0 then []
    else
      var before, last := WantedItems(ignored, pull, items[..|items| - 1]), items[|items| - 1];
      if HasAuthorIn(ignored, last) then before else before + [Key(pull.ticket, pull.repo, pull.number, last.sourceType, last.id)]
  }

  function Wanted(ignored: set<string>, pulls: seq<Pull>): seq<Key> {
    if |pulls| == 0 then []
    else
      var before, last := Wanted(ignored, pulls[..|pulls| - 1]), pulls[|pulls| - 1];
      if last.remote.Fetched? then before + WantedItems(ignored, last, last.remote.comments + last.remote.reviews) else before
  }

  function First(keys: seq<Key>, n: nat): seq<Key> {
    if |keys| <= n then keys else keys[..n]
  }

  /** The pass has written the first `cap` of the wanted keys, or those before the first write that failed. */
  ghost predicate WroteFirst(pass: Pass, sync: Sync, cap: nat, wanted: seq<Key>) {
    && pass.written <= First(wanted, cap) && pass.remaining == cap - |pass.written|
    && (forall n: nat :: n < |pass.written| ==> WriteLands(sync, n))
    && (pass.failed <==> |pass.written| < |First(wanted, cap)|)
    && (pass.failed ==> !WriteLands(sync, |pass.written|))
  }

  lemma ItemWritesFirst(pass: Pass, sync: Sync, pull: Pull, item: Item, cap: nat, wanted: seq<Key>)
    requires WroteFirst(pass, sync, cap, wanted)
    ensures WroteFirst(SyncItem(pass, sync, pull, item), sync, cap,
                       if IsIgnored(sync.ignored, item) then wanted else wanted + [KeyOf(pull, item)])
  {
    var longer := wanted + [KeyOf(pull, item)];
    assert First(wanted, cap) <= First(longer, cap);
  }

  lemma {:induction false} ItemsWriteFirst(pass: Pass, sync: Sync, pull: Pull, items: seq<Item>, cap: nat, wanted: seq<Key>)
    requires WroteFirst(pass, sync, cap, wanted)
    ensures WroteFirst(SyncItems(pass, sync, pull, items), sync, cap, wanted + WantedItems(sync.ignored, pull, items))
  {
    if |items| == 0 {
      assert wanted + [] == wanted;
    } else {
      var before, last := items[..|items| - 1], items[|items| - 1];
      var soFar := wanted + WantedItems(sync.ignored, pull, before);
      ItemsWriteFirst(pass, sync, pull, before, cap, wanted);
      ItemWritesFirst(SyncItems(pass, sync, pull, before), sync, pull, last, cap, soFar);
      IgnoredExactly(sync.ignored, last);
      assert wanted + (WantedItems(sync.ignored, pull, before) + [KeyOf(pull, last)]) == soFar + [KeyOf(pull, last)];
    }
  }

  /** Asking pull request `i` fails, and it is asked, because those before it do not fill the cap. */
  predicate AskedInVain(sync: Sync, pulls: seq<Pull>, cap: nat, i: nat)
    requires i < |pulls|
  {
    pulls[i].remote.FetchFails? && |Wanted(sync.ignored, pulls[..i])| < cap
  }

  /** The pass came to an end before pull request `k`, or after the last one, as a write failed, or asking it did. */
  ghost predicate CameTo(outcome: Outcome, sync: Sync, pulls: seq<Pull>, cap: nat, k: nat)
    requires k <= |pulls|
  {
    && WroteFirst(outcome.pass, sync, cap, Wanted(sync.ignored, pulls[..k]))
    && (outcome.ok <==> k == |pulls| && !outcome.pass.failed)
    && (k < |pulls| ==> outcome.pass.failed || AskedInVain(sync, pulls, cap, k))
    && (!outcome.pass.failed ==> forall i: nat :: i < k ==> !AskedInVain(sync, pulls, cap, i))
  }

  /** A pass writes exactly the first items that are not ignored, comments before reviews, as many as the cap lets it, or those before
      the first write that fails; and only those of the pull requests before the first that is asked in vain. */
  lemma {:induction false} PassWritesFirst(table: Table, index: Index, sync: Sync, pulls: seq<Pull>, cap: nat) returns (k: nat)
    ensures k <= |pulls| && CameTo(Synced(table, index, sync, pulls, cap), sync, pulls, cap, k)
    decreases |pulls|
  {
    k := 0;
    if |pulls| > 0 {
      var n, before := |pulls| - 1, pulls[..|pulls| - 1];
      k := PassWritesFirst(table, index, sync, before, cap);
      assert before[..k] == pulls[..k];
      var outcome := Synced(table, index, sync, before, cap);
      forall i: nat | i < k ensures AskedInVain(sync, before, cap, i) == AskedInVain(sync, pulls, cap, i) { assert before[..i] == pulls[..i]; }
      if k < n { assert before[..k] == pulls[..k] && before[k] == pulls[k]; }
      if outcome.ok && !Aborts(outcome.pass, pulls[n]) {
        assert before[..n] == before && pulls[..n + 1] == pulls;
        PullWritesFirst(outcome.pass, sync, pulls[n], cap, Wanted(sync.ignored, before));
        k := n + 1;
      }
    }
  }

  lemma PullWritesFirst(pass: Pass, sync: Sync, pull: Pull, cap: nat, wanted: seq<Key>)
    requires WroteFirst(pass, sync, cap, wanted)
    ensures WroteFirst(SyncItems(pass, sync, pull, ItemsOf(pull)), sync, cap,
                       if pull.remote.Fetched? then wanted + WantedItems(sync.ignored, pull, pull.remote.comments + pull.remote.reviews) else wanted)
  {
    ItemsWriteFirst(pass, sync, pull, ItemsOf(pull), cap, wanted);
    if !pull.remote.Fetched? { assert wanted + [] == wanted; }
  }

  /** An item of the pull requests, not ignored, says what the record says. */
  ghost predicate SaidBy(pulls: seq<Pull>, ignored: set<string>, key: Key, content: Content) {
    exists pull, item :: pull in pulls && item in ItemsOf(pull) && !HasAuthorIn(ignored, item) && item.content == content &&
      key == Key(pull.ticket, pull.repo, pull.number, item.sourceType, item.id)
  }

  /** Written records were seen now and say what some item says. */
  ghost predicate WritesSaid(pass: Pass, sync: Sync, pulls: seq<Pull>) {
    forall key <- pass.written :: key in pass.table && pass.table[key].lastSeenAt == sync.now &&
      SaidBy(pulls, sync.ignored, key, pass.table[key].content)
  }

  lemma ItemIsSaid(pass: Pass, sync: Sync, pulls: seq<Pull>, pull: Pull, item: Item)
    requires !sync.dryRun && WritesSaid(pass, sync, pulls) && pull in pulls && item in ItemsOf(pull)
    ensures WritesSaid(SyncItem(pass, sync, pull, item), sync, pulls)
  {
    var next, written := SyncItem(pass, sync, pull, item), KeyOf(pull, item);
    IgnoredExactly(sync.ignored, item);
    if next.written != pass.written {
      assert SaidBy(pulls, sync.ignored, written, item.content);
      assert next.written == pass.written + [written];
    }
  }

  lemma {:induction false} ItemsAreSaid(pass: Pass, sync: Sync, pulls: seq<Pull>, pull: Pull, items: seq<Item>)
    requires !sync.dryRun && WritesSaid(pass, sync, pulls) && pull in pulls && forall item <- items :: item in ItemsOf(pull)
    ensures WritesSaid(SyncItems(pass, sync, pull, items), sync, pulls)
  {
    if |items| > 0 {
      ItemsAreSaid(pass, sync, pulls, pull, items[..|items| - 1]);
      ItemIsSaid(SyncItems(pass, sync, pull, items[..|items| - 1]), sync, pulls, pull, items[|items| - 1]);
    }
  }

  lemma {:induction false} PrefixWritesSaid(table: Table, index: Index, sync: Sync, pulls: seq<Pull>, cap: int, n: nat)
    requires !sync.dryRun && n <= |pulls|
    ensures WritesSaid(Synced(table, index, sync, pulls[..n], cap).pass, sync, pulls)
    decreases n
  {
    if n > 0 {
      PrefixWritesSaid(table, index, sync, pulls, cap, n - 1);
      assert pulls[..n][..n - 1] == pulls[..n - 1];
      ItemsAreSaid(Synced(table, index, sync, pulls[..n - 1], cap).pass, sync, pulls, pulls[n - 1], ItemsOf(pulls[n - 1]));
    }
  }

  /** Every record a pass writes carries the content of a remote item of its key and the time of the pass. */
  lemma PassWritesSaid(table: Table, index: Index, sync: Sync, pulls: seq<Pull>, cap: int)
    requires !sync.dryRun
    ensures WritesSaid(Synced(table, index, sync, pulls, cap).pass, sync, pulls)
  {
    PrefixWritesSaid(table, index, sync, pulls, cap, |pulls|);
    assert pulls[..|pulls|] == pulls;
  }

  // ----- What a pass counts, and when its records begin -----

  /** An item that is not ignored comes under these parts of a key, and was submitted then, or its time is not known and it is
      seen then for the first time. */
  ghost predicate BeginsAt(pulls: seq<Pull>, sync: Sync, j: Joint, at: int) {
    exists pull, item :: pull in pulls && item in ItemsOf(pull) && Begins(sync, pull, item, j, at)
  }

  predicate Begins(sync: Sync, pull: Pull, item: Item, j: Joint, at: int) {
    && !HasAuthorIn(sync.ignored, item) && j == JointOf(Key(pull.ticket, pull.repo, pull.number, item.sourceType, item.id))
    && at == match item.submittedAt case Some(t) => t case None => sync.now
  }

  /** What has been added to the index is as much as is counted. */
  predicate CountsNew(index: Index, existing: Index, added: nat) {
    index.Keys <= existing.Keys && added == |existing.Keys - index.Keys|
  }

  /** And each record added begins with one of the items. */
  ghost predicate NewBegin(index: Index, existing: Index, sync: Sync, pulls: seq<Pull>) {
    forall j <- existing :: j !in index ==> BeginsAt(pulls, sync, j, existing[j].createdAt)
  }

  ghost predicate CountsAdded(index: Index, pass: Pass, sync: Sync, pulls: seq<Pull>) {
    CountsNew(index, pass.existing, pass.added) && NewBegin(index, pass.existing, sync, pulls)
  }

  lemma NewIsCounted(index: Index, existing: Index, added: nat, j: Joint, record: Record)
    requires CountsNew(index, existing, added)
    ensures CountsNew(index, existing[j := record], added + if j in existing then 0 else 1)
  {
    assert existing[j := record].Keys == existing.Keys + {j};
    OneMore(existing.Keys, index.Keys, j);
  }

  lemma OneMore(all: set<Joint>, known: set<Joint>, j: Joint)
    requires known <= all
    ensures |(all + {j}) - known| == |all - known| + if j in all then 0 else 1
  {
    if j in all { assert all + {j} == all; } else { assert (all + {j}) - known == (all - known) + {j}; }
  }

  lemma NewBegins(index: Index, existing: Index, sync: Sync, pulls: seq<Pull>, j: Joint, record: Record)
    requires NewBegin(index, existing, sync, pulls)
    requires if j in existing then record.createdAt == existing[j].createdAt else BeginsAt(pulls, sync, j, record.createdAt)
    ensures NewBegin(index, existing[j := record], sync, pulls)
  {
    var existing' := existing[j := record];
    forall k <- existing' | k !in index ensures BeginsAt(pulls, sync, k, existing'[k].createdAt) {
      if k in existing { assert BeginsAt(pulls, sync, k, existing[k].createdAt); }
    }
  }

  lemma WrittenIsAdded(index: Index, existing: Index, added: nat, sync: Sync, pulls: seq<Pull>, pull: Pull, item: Item)
    requires CountsNew(index, existing, added) && NewBegin(index, existing, sync, pulls)
    requires pull in pulls && item in ItemsOf(pull) && !IsIgnored(sync.ignored, item)
    ensures var j := JointOf(KeyOf(pull, item));
            var existing' := existing[j := RecordOf(Lookup(existing, j), item, sync.now)];
            CountsNew(index, existing', added + if j in existing then 0 else 1) && NewBegin(index, existing', sync, pulls)
  {
    var j := JointOf(KeyOf(pull, item));
    var record := RecordOf(Lookup(existing, j), item, sync.now);
    IgnoredExactly(sync.ignored, item);
    assert Begins(sync, pull, item, j, if item.submittedAt.Some? then item.submittedAt.value else sync.now);
    NewIsCounted(index, existing, added, j, record);
    NewBegins(index, existing, sync, pulls, j, record);
  }

  /** An item leaves the index as it is, or writes its record there. */
  lemma ItemShape(pass: Pass, sync: Sync, pull: Pull, item: Item) returns (writes: bool)
    ensures var next, j := SyncItem(pass, sync, pull, item), JointOf(KeyOf(pull, item));
            if writes then
              && !IsIgnored(sync.ignored, item) && next.existing == pass.existing[j := RecordOf(Lookup(pass.existing, j), item, sync.now)]
              && next.added == pass.added + if j in pass.existing then 0 else 1
            else next.existing == pass.existing && next.added == pass.added
  {
    writes := !IsIgnored(sync.ignored, item) && pass.remaining > 0 && !pass.failed && WriteLands(sync, |pass.written|);
  }

  lemma ItemCountsAdded(index: Index, pass: Pass, sync: Sync, pulls: seq<Pull>, pull: Pull, item: Item)
    requires CountsAdded(index, pass, sync, pulls) && pull in pulls && item in ItemsOf(pull)
    ensures CountsAdded(index, SyncItem(pass, sync, pull, item), sync, pulls)
  {
    var writes := ItemShape(pass, sync, pull, item);
    if writes { WrittenIsAdded(index, pass.existing, pass.added, sync, pulls, pull, item); }
  }

  lemma {:induction false} ItemsCountAdded(index: Index, pass: Pass, sync: Sync, pulls: seq<Pull>, pull: Pull, items: seq<Item>)
    requires CountsAdded(index, pass, sync, pulls) && pull in pulls && forall item <- items :: item in ItemsOf(pull)
    ensures CountsAdded(index, SyncItems(pass, sync, pull, items), sync, pulls)
  {
    if |items| > 0 {
      ItemsCountAdded(index, pass, sync, pulls, pull, items[..|items| - 1]);
      ItemCountsAdded(index, SyncItems(pass, sync, pull, items[..|items| - 1]), sync, pulls, pull, items[|items| - 1]);
    }
  }

  lemma {:induction false} PrefixCountsAdded(table: Table, index: Index, sync: Sync, pulls: seq<Pull>, cap: int, n: nat)
    requires n <= |pulls|
    ensures CountsAdded(index, Synced(table, index, sync, pulls[..n], cap).pass, sync, pulls)
    decreases n
  {
    if n == 0 {
      assert index.Keys - index.Keys == {};
    } else {
      PrefixCountsAdded(table, index, sync, pulls, cap, n - 1);
      var pass := Synced(table, index, sync, pulls[..n - 1], cap).pass;
      ItemsCountAdded(index, pass, sync, pulls, pulls[n - 1], ItemsOf(pulls[n - 1]));
      PullsStep(Begin(table, index, cap), sync, pulls, n);
    }
  }

  /** One pull request more: it is not asked, or its items are looked at. */
  lemma PullsStep(start: Pass, sync: Sync, pulls: seq<Pull>, n: nat)
    requires 0 < n <= |pulls|
    ensures var before, after := SyncPulls(start, sync, pulls[..n - 1]).pass, SyncPulls(start, sync, pulls[..n]).pass;
            after == before || after == SyncItems(before, sync, pulls[n - 1], ItemsOf(pulls[n - 1]))
  {
    assert pulls[..n][..n - 1] == pulls[..n - 1];
  }

  /** A pass counts as added the keys it has written that it did not know, and such a record begins when its item was submitted or,
      when that is not known, now. */
  lemma PassAddsNew(table: Table, index: Index, sync: Sync, pulls: seq<Pull>, cap: int)
    ensures var pass := Synced(table, index, sync, pulls, cap).pass; pass.added == |pass.existing.Keys - index.Keys|
    ensures !sync.dryRun ==> forall key <- Synced(table, index, sync, pulls, cap).pass.written :: JointOf(key) !in index ==>
              var written := Synced(table, index, sync, pulls, cap).pass.table;
              key in written && BeginsAt(pulls, sync, JointOf(key), written[key].createdAt)
  {
    PrefixCountsAdded(table, index, sync, pulls, cap, |pulls|);
    assert pulls[..|pulls|] == pulls;
    if !sync.dryRun { PullsCarryLives(table, index, Begin(table, index, cap), sync, pulls); }
  }

  /** And as updated each record it knew and that it writes with another content, at another time or with a status at last. */
  lemma ItemIsUpdated(pass: Pass, sync: Sync, pull: Pull, item: Item)
    ensures var next, j := SyncItem(pass, sync, pull, item), JointOf(Key(pull.ticket, pull.repo, pull.number, item.sourceType, item.id));
            next.updated == pass.updated +
              if next.written != pass.written && j in pass.existing &&
                 (pass.existing[j].content != item.content || pass.existing[j].lastSeenAt != sync.now || pass.existing[j].status == Blank)
              then 1 else 0
  {
  }

  // ----- Repeating a pass -----

  /** Unless a write of `p` failed, `q` has written the same keys and may write as many more, or failed on the way. */
  predicate Follows(p: Pass, q: Pass) {
    !p.failed ==> q.written <= p.written && (q.failed || (p.remaining == q.remaining && p.written == q.written))
  }

  lemma {:induction false} ItemsFollow(p: Pass, q: Pass, s: Sync, t: Sync, pull: Pull, items: seq<Item>)
    requires Follows(p, q) && s.ignored == t.ignored
    ensures Follows(SyncItems(p, s, pull, items), SyncItems(q, t, pull, items))
    ensures p.failed || q.failed ==> (p.failed ==> SyncItems(p, s, pull, items).failed) && (q.failed ==> SyncItems(q, t, pull, items) == q)
  {
    if |items| > 0 { ItemsFollow(p, q, s, t, pull, items[..|items| - 1]); }
  }

  /** What is written depends on the remote items and on the writes that fail, not on what is in the table. */
  lemma {:induction false} PullsFollow(p: Pass, q: Pass, s: Sync, t: Sync, pulls: seq<Pull>)
    requires Follows(p, q) && s.ignored == t.ignored && !p.failed && !q.failed
    ensures var x, y := SyncPulls(p, s, pulls), SyncPulls(q, t, pulls);
            Follows(x.pass, y.pass) && (!x.pass.failed ==> (y.ok ==> x.ok) && (x.ok && !y.pass.failed ==> y.ok)) && (y.pass.failed ==> !y.ok)
  {
    if |pulls| > 0 {
      PullsFollow(p, q, s, t, pulls[..|pulls| - 1]);
      var x, y := SyncPulls(p, s, pulls[..|pulls| - 1]), SyncPulls(q, t, pulls[..|pulls| - 1]);
      ItemsFollow(x.pass, y.pass, s, t, pulls[|pulls| - 1], ItemsOf(pulls[|pulls| - 1]));
    }
  }

  /** Nothing was added since `start`, provided everything written was known at `start`. */
  predicate NothingAdded(start: Pass, pass: Pass) {
    && start.existing.Keys <= pass.existing.Keys
    && ((forall key <- pass.written :: JointOf(key) in start.existing) ==> pass.added == start.added)
  }

  lemma {:induction false} ItemsAddNothing(start: Pass, pass: Pass, sync: Sync, pull: Pull, items: seq<Item>)
    requires NothingAdded(start, pass)
    ensures NothingAdded(start, SyncItems(pass, sync, pull, items))
  {
    if |items| > 0 {
      var before, item := SyncItems(pass, sync, pull, items[..|items| - 1]), items[|items| - 1];
      ItemsAddNothing(start, pass, sync, pull, items[..|items| - 1]);
      var next := SyncItem(before, sync, pull, item);
      if next.written != before.written {
        assert next.written == before.written + [KeyOf(pull, item)];
        assert KeyOf(pull, item) in next.written && forall key <- before.written :: key in next.written;
      }
    }
  }

  lemma {:induction false} PullsAddNothing(start: Pass, pass: Pass, sync: Sync, pulls: seq<Pull>)
    requires NothingAdded(start, pass)
    ensures NothingAdded(start, SyncPulls(pass, sync, pulls).pass)
  {
    if |pulls| > 0 {
      PullsAddNothing(start, pass, sync, pulls[..|pulls| - 1]);
      var before, pull := SyncPulls(pass, sync, pulls[..|pulls| - 1]), pulls[|pulls| - 1];
      ItemsAddNothing(start, before.pass, sync, pull, ItemsOf(pull));
    }
  }

  /** The keys of the table are those it had and those written. */
  predicate AddsWritten(start: Pass, pass: Pass) {
    start.written <= pass.written && pass.table.Keys == start.table.Keys + set key <- pass.written[|start.written|..]
  }

  lemma ItemAddsWritten(start: Pass, pass: Pass, sync: Sync, pull: Pull, item: Item)
    requires !sync.dryRun && AddsWritten(start, pass)
    ensures AddsWritten(start, SyncItem(pass, sync, pull, item))
  {
    var next, key, n := SyncItem(pass, sync, pull, item), KeyOf(pull, item), |start.written|;
    if next.written != pass.written {
      assert next.written[n..] == pass.written[n..] + [key];
    }
  }

  lemma {:induction false} ItemsAddWritten(start: Pass, pass: Pass, sync: Sync, pull: Pull, items: seq<Item>)
    requires !sync.dryRun && AddsWritten(start, pass)
    ensures AddsWritten(start, SyncItems(pass, sync, pull, items))
  {
    if |items| > 0 {
      ItemsAddWritten(start, pass, sync, pull, items[..|items| - 1]);
      ItemAddsWritten(start, SyncItems(pass, sync, pull, items[..|items| - 1]), sync, pull, items[|items| - 1]);
    }
  }

  lemma {:induction false} PullsAddWritten(start: Pass, pass: Pass, sync: Sync, pulls: seq<Pull>)
    requires !sync.dryRun && AddsWritten(start, pass)
    ensures AddsWritten(start, SyncPulls(pass, sync, pulls).pass)
  {
    if |pulls| > 0 {
      PullsAddWritten(start, pass, sync, pulls[..|pulls| - 1]);
      var before, pull := SyncPulls(pass, sync, pulls[..|pulls| - 1]), pulls[|pulls| - 1];
      ItemsAddWritten(start, before.pass, sync, pull, ItemsOf(pull));
    }
  }

  /** A pass whose writes all landed, repeated on the same remote items, writes the same records again, as far as its own
      writes land, and adds none: what a capped pass leaves out, its repetition leaves out as well. */
  lemma RepeatAddsNothing(table: Table, index: Index, sync: Sync, again: Sync, index': Index, pulls: seq<Pull>, cap: int)
    requires !sync.dryRun && !again.dryRun && sync.ignored == again.ignored
    requires var first := Synced(table, index, sync, pulls, cap).pass; !first.failed && HasAll(index', first.table)
    ensures var first := Synced(table, index, sync, pulls, cap).pass;
            var second := Synced(first.table, index', again, pulls, cap).pass;
            && second.added == 0 && second.table.Keys == first.table.Keys
            && second.written <= first.written && (!second.failed ==> second.written == first.written)
  {
    var begin := Begin(table, index, cap);
    var first := SyncPulls(begin, sync, pulls).pass;
    var start := Begin(first.table, index', cap);
    var second := SyncPulls(start, again, pulls).pass;
    PullsAddWritten(begin, begin, sync, pulls);
    PullsFollow(begin, start, sync, again, pulls);
    PullsAddNothing(start, start, again, pulls);
    PullsAddWritten(start, start, again, pulls);
    assert first.written[0..] == first.written && second.written[0..] == second.written;
    assert forall key <- second.written :: key in first.written && key in first.table;
  }

  // ----- The life of a record -----

  predicate Concerns(key: Key, ticket: string, repo: string) {
    Text.EqualFold(key.ticket, ticket) && Text.EqualFold(key.repo, repo)
  }

  function MovedRow(key: Key, record: Record, move: Move): Record {
    if record.status == move.from && Concerns(key, move.ticket, move.repo) then record.(status := move.to, addressedAt := move.addressedAt)
    else record
  }

  datatype Move = Move(ticket: string, repo: string, from: Status, to: Status, addressedAt: Option<int>)

  /** A table in which the rows in `done` have been moved. */
  function MovedIn(table: Table, done: set<Key>, move: Move): Table {
    map key <- table :: if key in done then MovedRow(key, table[key], move) else table[key]
  }

  lemma MovedInStep(table: Table, done: set<Key>, key: Key, move: Move)
    requires key in table && key !in done
    ensures MovedIn(table, done + {key}, move) == MovedIn(table, done, move)[key := MovedRow(key, table[key], move)]
  {
  }

  predicate Moves(table: Table, key: Key, move: Move)
    requires key in table
  {
    table[key].status == move.from && Concerns(key, move.ticket, move.repo)
  }

  lemma MovedInAll(table: Table, done: set<Key>, move: Move)
    requires forall key <- table :: Moves(table, key, move) ==> key in done
    ensures MovedIn(table, done, move) == Moved(table, move)
  {
  }

  /** transitionReviewFeedbackStatus, as one change of the table. */
  function Moved(table: Table, move: Move): Table {
    map key <- table :: MovedRow(key, table[key], move)
  }

  /** A sync, a commit that was made, or a pull request that was opened or found open; an error may stop it after the rows
      in `done`. */
  datatype Step =
    | SyncStep(index: Index, sync: Sync, pulls: seq<Pull>, cap: int)
    | CommitStep(ticket: string, repo: string, done: set<Key>)
    | PullStep(ticket: string, repo: string, now: int, done: set<Key>)

  function Apply(table: Table, step: Step): Table {
    match step
    case SyncStep(index, sync, pulls, cap) => Synced(table, index, sync, pulls, cap).pass.table
    case CommitStep(ticket, repo, done) => MovedIn(table, done, Move(ticket, repo, Queued, New, None))
    case PullStep(ticket, repo, now, done) => MovedIn(table, done, Move(ticket, repo, New, Addressed, Some(now)))
  }

  function After(table: Table, steps: seq<Step>): Table {
    if |steps| == 0 then table else Apply(After(table, steps[..|steps| - 1]), steps[|steps| - 1])
  }

  function Rank(status: Status): nat {
    match status
    case Blank => 0
    case Queued => 1
    case New => 2
    case Addressed => 3
    case Ignored => 4
  }

  /** No record is lost and no status goes back. */
  predicate Forward(before: Table, after: Table) {
    forall key <- before :: key in after && Rank(before[key].status) <= Rank(after[key].status)
  }

  /** The status a pass gives a record, from what it read. */
  function SeenStatus(index: Index, key: Key): Status {
    if JointOf(key) in index then LifeOf(index[JointOf(key)]).status else Queued
  }

  /** No record is ahead of what the pass looks up for it. */
  predicate NoneAhead(table: Table, index: Index) {
    forall key <- table :: Rank(table[key].status) <= Rank(SeenStatus(index, key))
  }

  /** None of the records written is. */
  predicate NoneWrittenAhead(table: Table, index: Index, written: seq<Key>) {
    forall key <- written :: key in table ==> Rank(table[key].status) <= Rank(SeenStatus(index, key))
  }

  /** A pass sets statuses back exactly when a record it writes was ahead of what was looked up. */
  lemma StaleSyncExactly(table: Table, index: Index, sync: Sync, pulls: seq<Pull>, cap: int)
    requires !sync.dryRun
    ensures var pass := Synced(table, index, sync, pulls, cap).pass;
            Forward(table, pass.table) <==> NoneWrittenAhead(table, index, pass.written)
  {
    var pass := Synced(table, index, sync, pulls, cap).pass;
    WrittenLives(table, index, sync, pulls, cap);
    forall key <- table
      ensures key in pass.table
      ensures key in pass.written ==> pass.table[key].status == SeenStatus(index, key)
      ensures key !in pass.written ==> pass.table[key] == table[key]
    {
      assert Lives(table, index, pass.table, pass.written, key);
    }
  }

  predicate GoesForward(table: Table, index: Index, sync: Sync, pulls: seq<Pull>, cap: int) {
    Forward(table, Synced(table, index, sync, pulls, cap).pass.table)
  }

  /** A sync takes no lock, so a commit or a pull request may run between its reading and its writing. Exactly when some
      remote answers make it set a status back: some record of the table is ahead of what the sync has read. */
  lemma SyncMayGoBackExactly(table: Table, index: Index, sync: Sync)
    requires !sync.dryRun && sync.lands(0)
    ensures (forall pulls: seq<Pull>, cap: int :: GoesForward(table, index, sync, pulls, cap)) <==> NoneAhead(table, index)
  {
    if key :| key in table && Rank(table[key].status) > Rank(SeenStatus(index, key)) {
      OneIsWritten(table, index, sync, key);
      StaleSyncExactly(table, index, sync, [PullOf(key)], 1);
      assert !GoesForward(table, index, sync, [PullOf(key)], 1);
    } else {
      forall pulls: seq<Pull>, cap: int ensures GoesForward(table, index, sync, pulls, cap) {
        StaleSyncExactly(table, index, sync, pulls, cap);
      }
    }
  }

  /** A sync writes no record that is ahead of what it looks up. */
  predicate StepFits(table: Table, step: Step) {
    step.SyncStep? && !step.sync.dryRun ==>
      NoneWrittenAhead(table, step.index, Synced(table, step.index, step.sync, step.pulls, step.cap).pass.written)
  }

  lemma StepIsForwardExactly(table: Table, step: Step)
    ensures Forward(table, Apply(table, step)) <==> StepFits(table, step)
  {
    if step.SyncStep? {
      if step.sync.dryRun {
        PullsDry(Begin(table, step.index, step.cap), step.sync, step.pulls);
      } else {
        StaleSyncExactly(table, step.index, step.sync, step.pulls, step.cap);
      }
    }
  }

  predicate FitsAt(table: Table, steps: seq<Step>, n: nat)
    requires n < |steps|
  {
    StepFits(After(table, steps[..n]), steps[n])
  }

  predicate ForwardFrom(table: Table, steps: seq<Step>, i: nat, j: nat)
    requires i <= j <= |steps|
  {
    Forward(After(table, steps[..i]), After(table, steps[..j]))
  }

  lemma {:induction false} FittingRunIsForward(table: Table, steps: seq<Step>, i: nat, j: nat)
    requires i <= j <= |steps| && forall n :: i <= n < j ==> FitsAt(table, steps, n)
    ensures ForwardFrom(table, steps, i, j)
    decreases j
  {
    if i < j {
      FittingRunIsForward(table, steps, i, j - 1);
      assert FitsAt(table, steps, j - 1);
      NextIsForwardExactly(table, steps, j - 1);
      ForwardChains(After(table, steps[..i]), After(table, steps[..j - 1]), After(table, steps[..j]));
    }
  }

  lemma NextIsForwardExactly(table: Table, steps: seq<Step>, n: nat)
    requires n < |steps|
    ensures ForwardFrom(table, steps, n, n + 1) <==> FitsAt(table, steps, n)
  {
    assert steps[..n + 1][..n] == steps[..n];
    StepIsForwardExactly(After(table, steps[..n]), steps[n]);
  }

  lemma ForwardChains(a: Table, b: Table, c: Table)
    requires Forward(a, b) && Forward(b, c)
    ensures Forward(a, c)
  {
  }

  /** Over serialized steps no record is lost and no status goes back, exactly if no sync among them writes a record that is
      ahead of what it looks up. */
  lemma RunIsForwardExactly(table: Table, steps: seq<Step>)
    ensures (forall i, j :: 0 <= i <= j <= |steps| ==> ForwardFrom(table, steps, i, j)) <==> forall n :: 0 <= n < |steps| ==> FitsAt(table, steps, n)
  {
    if n :| 0 <= n < |steps| && !FitsAt(table, steps, n) {
      NextIsForwardExactly(table, steps, n);
      assert !ForwardFrom(table, steps, n, n + 1);
    } else {
      forall i, j | 0 <= i <= j <= |steps| ensures ForwardFrom(table, steps, i, j) {
        FittingRunIsForward(table, steps, i, j);
      }
    }
  }

  /** A sync that reads the table it then writes to, for pull requests whose tickets and repositories have no bars. */
  ghost predicate ReadsPlainly(table: Table, step: Step) {
    step.SyncStep? ==> IsIndex(step.index, table) && forall pull <- step.pulls :: '|' !in pull.ticket && '|' !in pull.repo
  }

  lemma {:induction false} ItemsHaveNoBars(pass: Pass, sync: Sync, pull: Pull, items: seq<Item>)
    requires '|' !in pull.ticket && '|' !in pull.repo && forall key <- pass.written :: BarFree(key)
    ensures forall key <- SyncItems(pass, sync, pull, items).written :: BarFree(key)
  {
    if |items| > 0 { ItemsHaveNoBars(pass, sync, pull, items[..|items| - 1]); }
  }

  lemma {:induction false} PullsHaveNoBars(pass: Pass, sync: Sync, pulls: seq<Pull>)
    requires (forall pull <- pulls :: '|' !in pull.ticket && '|' !in pull.repo) && forall key <- pass.written :: BarFree(key)
    ensures forall key <- SyncPulls(pass, sync, pulls).pass.written :: BarFree(key)
  {
    if |pulls| > 0 {
      PullsHaveNoBars(pass, sync, pulls[..|pulls| - 1]);
      var before, pull := SyncPulls(pass, sync, pulls[..|pulls| - 1]), pulls[|pulls| - 1];
      ItemsHaveNoBars(before.pass, sync, pull, ItemsOf(pull));
    }
  }

  lemma SyncKeepsNoBars(table: Table, index: Index, sync: Sync, pulls: seq<Pull>, cap: int)
    requires NoBars(table) && forall pull <- pulls :: '|' !in pull.ticket && '|' !in pull.repo
    ensures NoBars(Synced(table, index, sync, pulls, cap).pass.table)
  {
    var pass := Synced(table, index, sync, pulls, cap).pass;
    PullsHaveNoBars(Begin(table, index, cap), sync, pulls);
    if sync.dryRun {
      PullsDry(Begin(table, index, cap), sync, pulls);
    } else {
      WrittenLives(table, index, sync, pulls, cap);
      forall key <- pass.table ensures BarFree(key) { assert Lives(table, index, pass.table, pass.written, key); }
    }
  }

  lemma PlainSyncFits(table: Table, step: Step)
    requires NoBars(table) && ReadsPlainly(table, step)
    ensures StepFits(table, step)
  {
    if step.SyncStep? {
      forall key <- table ensures Rank(table[key].status) <= Rank(SeenStatus(step.index, key)) {
        NoBarsIsFaithful(table, step.index, key);
      }
    }
  }

  /** So over serialized steps without bars in tickets and repositories no record is lost and no status ever goes back. */
  lemma {:induction false} RunIsForward(table: Table, steps: seq<Step>, i: nat, j: nat)
    requires NoBars(table) && (forall n :: 0 <= n < |steps| ==> ReadsPlainly(After(table, steps[..n]), steps[n])) && i <= j <= |steps|
    ensures ForwardFrom(table, steps, i, j)
  {
    forall n | i <= n < j ensures FitsAt(table, steps, n) {
      PlainRunHasNoBars(table, steps, n);
      PlainSyncFits(After(table, steps[..n]), steps[n]);
    }
    FittingRunIsForward(table, steps, i, j);
  }

  lemma {:induction false} PlainRunHasNoBars(table: Table, steps: seq<Step>, n: nat)
    requires NoBars(table) && n <= |steps| && forall k :: 0 <= k < n ==> ReadsPlainly(After(table, steps[..k]), steps[k])
    ensures NoBars(After(table, steps[..n]))
    decreases n
  {
    if n > 0 {
      PlainRunHasNoBars(table, steps, n - 1);
      assert steps[..n][..n - 1] == steps[..n - 1];
      var before, step := After(table, steps[..n - 1]), steps[n - 1];
      assert ReadsPlainly(before, step);
      if step.SyncStep? { SyncKeepsNoBars(before, step.index, step.sync, step.pulls, step.cap); }
    }
  }

  /** A commit makes queued records of its ticket and repository new, and a pull request new ones addressed, at its time; those an
      error left out, and all others, stay. */
  lemma MoveMeaning(table: Table, key: Key, ticket: string, repo: string, now: int, done: set<Key>)
    requires key in table
    ensures var concerned := key in done && Text.EqualFold(key.ticket, ticket) && Text.EqualFold(key.repo, repo);
            var record := table[key];
            var committed := Apply(table, CommitStep(ticket, repo, done));
            var addressed := Apply(table, PullStep(ticket, repo, now, done));
            && committed.Keys == addressed.Keys == table.Keys
            && committed[key] == (if concerned && record.status == Queued then record.(status := New, addressedAt := None) else record)
            && addressed[key] == (if concerned && record.status == New then record.(status := Addressed, addressedAt := Some(now)) else record)
  {
  }

  /** Only queued, new and addressed occur, and a record has an addressing time exactly when it is addressed. */
  predicate WellFormed(table: Table) {
    forall key <- table :: table[key].status in {Queued, New, Addressed} && (table[key].addressedAt.Some? <==> table[key].status == Addressed)
  }

  predicate IndexWellFormed(index: Index) {
    forall j <- index :: index[j].status in {Queued, New, Addressed} && (index[j].addressedAt.Some? <==> index[j].status == Addressed)
  }

  /** A sync has read the table as it was at its turn or before. */
  ghost predicate ReadsEarlier(steps: seq<Step>, n: nat)
    requires n < |steps|
  {
    steps[n].SyncStep? ==> exists m :: 0 <= m <= n && IsIndex(steps[n].index, After(map[], steps[..m]))
  }

  lemma {:induction false} RecordsAreWellFormed(steps: seq<Step>, n: nat)
    requires n <= |steps| && forall k :: 0 <= k < n ==> ReadsEarlier(steps, k)
    ensures WellFormed(After(map[], steps[..n]))
    decreases n
  {
    if n > 0 {
      var before, last := After(map[], steps[..n - 1]), steps[n - 1];
      assert steps[..n][..n - 1] == steps[..n - 1];
      RecordsAreWellFormed(steps, n - 1);
      if last.SyncStep? {
        assert ReadsEarlier(steps, n - 1);
        var m :| 0 <= m <= n - 1 && IsIndex(last.index, After(map[], steps[..m]));
        RecordsAreWellFormed(steps, m);
        ReadWellFormed(After(map[], steps[..m]), last.index);
        SyncIsWellFormed(before, last.index, last.sync, last.pulls, last.cap);
      }
    }
  }

  lemma SyncIsWellFormed(table: Table, index: Index, sync: Sync, pulls: seq<Pull>, cap: int)
    requires WellFormed(table) && IndexWellFormed(index)
    ensures WellFormed(Synced(table, index, sync, pulls, cap).pass.table)
  {
    var pass := Synced(table, index, sync, pulls, cap).pass;
    if sync.dryRun {
      PullsDry(Begin(table, index, cap), sync, pulls);
    } else {
      WrittenLives(table, index, sync, pulls, cap);
      forall key <- pass.table
        ensures pass.table[key].status in {Queued, New, Addressed} && (pass.table[key].addressedAt.Some? <==> pass.table[key].status == Addressed)
      {
        assert Lives(table, index, pass.table, pass.written, key);
      }
    }
  }

  /** What is read of a well-formed table is well-formed. */
  lemma ReadWellFormed(table: Table, index: Index)
    requires WellFormed(table) && IsIndex(index, table)
    ensures IndexWellFormed(index)
  {
    forall j <- index
      ensures index[j].status in {Queued, New, Addressed} && (index[j].addressedAt.Some? <==> index[j].status == Addressed)
    {
      var key :| ListedLast(table, key) && JointOf(key) == j && index[j] == table[key];
    }
  }

  // ----- A sync that overlaps a commit or a pull request -----

  /** It happens: a comment read as queued, committed meanwhile, is queued again. */
  lemma StaleSyncGoesBack(key: Key, record: Record, index: Index, sync: Sync)
    requires record.status == Queued && !sync.dryRun && sync.lands(0) && IsIndex(index, map[key := record])
    ensures var table := Apply(map[key := record], CommitStep(key.ticket, key.repo, {key}));
            !Forward(table, Synced(table, index, sync, [PullOf(key)], 1).pass.table)
  {
    var seen := map[key := record];
    var table := Apply(seen, CommitStep(key.ticket, key.repo, {key}));
    assert key in table && table[key].status == New;
    assert ListedLast(seen, key);
    IndexHasLast(index, seen, key);
    OneIsWritten(table, index, sync, key);
    StaleSyncExactly(table, index, sync, [PullOf(key)], 1);
  }

  // ----- The table in place -----

  /** The keys of a table as the store lists its rows: each once, and none before one with a smaller ticket. */
  ghost predicate IsListing(listing: seq<Key>, table: Table) {
    && (forall key :: key in listing <==> key in table)
    && (forall i, j :: 0 <= i < j < |listing| ==> listing[i] != listing[j] && !Lex.Less(listing[j].ticket, listing[i].ticket))
  }

  /** The rows listed first. */
  function ListedTo(listing: seq<Key>, table: Table, n: nat): Table
    requires n <= |listing|
  {
    map key | key in listing[..n] && key in table :: table[key]
  }

  lemma ListedNext(listing: seq<Key>, table: Table, i: nat)
    requires i < |listing| && listing[i] in table
    ensures ListedTo(listing, table, i + 1) == ListedTo(listing, table, i)[listing[i] := table[listing[i]]]
  {
    assert listing[..i + 1] == listing[..i] + [listing[i]];
  }

  lemma EarlierIsShorter(listing: seq<Key>, table: Table, i: nat, other: Key)
    requires IsListing(listing, table) && i < |listing| && other in listing[..i]
    ensures other != listing[i] && (JointOf(other) == JointOf(listing[i]) ==> |other.ticket| <= |listing[i].ticket|)
  {
    var j :| 0 <= j < i && listing[j] == other;
    if JointOf(other) == JointOf(listing[i]) { LongerIsLater(listing[i], other); }
  }

  lemma ListingStep(listing: seq<Key>, table: Table, index: Index, i: nat)
    requires IsListing(listing, table) && i < |listing| && IsIndex(index, ListedTo(listing, table, i))
    ensures listing[i] in table && IsIndex(index[JointOf(listing[i]) := table[listing[i]]], ListedTo(listing, table, i + 1))
  {
    var before, last := ListedTo(listing, table, i), listing[i];
    assert last in listing;
    forall other <- listing[..i]
      ensures other != last && (JointOf(other) == JointOf(last) ==> |other.ticket| <= |last.ticket|)
    {
      EarlierIsShorter(listing, table, i, other);
    }
    IndexGrows(index, before, last, table[last]);
    ListedNext(listing, table, i);
  }

  lemma WholeListing(listing: seq<Key>, table: Table)
    requires IsListing(listing, table)
    ensures ListedTo(listing, table, |listing|) == table
  {
    assert listing[..|listing|] == listing;
  }

  /** The run_review_feedback table of a run. */
  class FeedbackTable {
    var rows: Table

    constructor ()
      ensures rows == map[]
    {
      rows := map[];
    }

    /** One list of a pull request's items; the pass's counters are carried from list to list. */
    method WriteItems(pull: Pull, items: seq<Item>, sync: Sync, before: Pass) returns (after: Pass)
      requires before.table == rows
      modifies this
      ensures after == SyncItems(before, sync, pull, items) && rows == after.table
    {
      var existingByKey, remaining, added, updated := before.existing, before.remaining, before.added, before.updated;
      var written := before.written;
      after := before;
      if before.failed {
        FailedStays(before, sync, pull, items);
        return;
      }
      for i := 0 to |items|
        invariant after == SyncItems(before, sync, pull, items[..i]) && after.table == rows
        invariant after == Pass(rows, existingByKey, remaining, added, updated, written, false)
      {
        var item := items[i];
        assert items[..i + 1][..i] == items[..i];
        if IsIgnored(sync.ignored, item) || remaining <= 0 { continue; }
        var key := KeyOf(pull, item);
        if !sync.dryRun && !sync.lands(|written|) {
          after := after.(failed := true);
          FailedPrefix(before, sync, pull, items, i + 1);
          return;
        }
        var existing := Lookup(existingByKey, JointOf(key));
        var record := RecordOf(existing, item, sync.now);
        if !sync.dryRun { rows := rows[key := record]; }
        if existing.None? { added := added + 1; } else if existing.value != record { updated := updated + 1; }
        existingByKey := existingByKey[JointOf(key) := record];
        remaining := remaining - 1;
        written := written + [key];
        after := Pass(rows, existingByKey, remaining, added, updated, written, false);
      }
      assert items[..|items|] == items;
    }

    /** Indexes the rows as the store lists them, by ticket first; of rows with one joined key the last one stays. */
    method IndexRows(listing: seq<Key>) returns (index: Index)
      requires IsListing(listing, rows)
      ensures IsIndex(index, rows)
    {
      index := map[];
      for i := 0 to |listing|
        invariant IsIndex(index, ListedTo(listing, rows, i))
      {
        ListingStep(listing, rows, index, i);
        index := index[JointOf(listing[i]) := rows[listing[i]]];
      }
      WholeListing(listing, rows);
    }

    /** SyncReviewFeedback, once the run and the options have been checked. A cap that is not positive is an error. */
    method SyncReviewFeedback(listing: seq<Key>, pulls: seq<Pull>, sync: Sync, policyCap: int, requested: int)
      returns (outcome: Option<Pass>, ghost index: Index)
      requires IsListing(listing, rows)
      modifies this
      ensures Cap(policyCap, requested) <= 0 ==> outcome == None && rows == old(rows)
      ensures Cap(policyCap, requested) > 0 ==>
                IsIndex(index, old(rows)) &&
                var synced := Synced(old(rows), index, sync, pulls, Cap(policyCap, requested));
                rows == synced.pass.table && outcome == if synced.ok then Some(synced.pass) else None
    {
      var maxItems := policyCap;
      if requested > 0 && requested < maxItems { maxItems := requested; }
      if maxItems <= 0 { return None, map[]; }
      var existing := IndexRows(listing);
      index := existing;
      outcome := SyncAll(pulls, sync, existing, maxItems);
    }

    /** The loop over the pull requests. */
    method SyncAll(pulls: seq<Pull>, sync: Sync, existing: Index, maxItems: int) returns (outcome: Option<Pass>)
      modifies this
      ensures var synced := Synced(old(rows), existing, sync, pulls, maxItems);
              rows == synced.pass.table && outcome == if synced.ok then Some(synced.pass) else None
    {
      var pass := Begin(rows, existing, maxItems);
      ghost var start := pass;
      for i := 0 to |pulls|
        invariant SyncPulls(start, sync, pulls[..i]) == Outcome(pass, true) && rows == pass.table && !pass.failed
      {
        assert pulls[..i + 1][..i] == pulls[..i];
        if pass.remaining > 0 && pulls[i].remote.FetchFails? {
          AbortIsFinal(start, sync, pulls, i + 1);
          return None;
        }
        ghost var before := pass;
        if pulls[i].remote.Fetched? {
          pass := WriteItems(pulls[i], pulls[i].remote.comments, sync, pass);
          pass := WriteItems(pulls[i], pulls[i].remote.reviews, sync, pass);
          ItemsInTwo(before, sync, pulls[i], pulls[i].remote.comments, pulls[i].remote.reviews);
          if pass.failed {
            AbortIsFinal(start, sync, pulls, i + 1);
            return None;
          }
        }
      }
      assert pulls[..|pulls|] == pulls;
      outcome := Some(pass);
    }

    /** transitionReviewFeedbackStatus: lists the rows of a status, then updates those of the ticket and repository; an
        update that fails ends it, with the rows updated before left so. */
    method TransitionStatus(move: Move, lands: Key -> bool) returns (ok: bool)
      modifies this
      ensures ok <==> forall key <- old(rows) :: Moves(old(rows), key, move) ==> lands(key)
      ensures ok ==> rows == Moved(old(rows), move) && rows.Keys == old(rows).Keys
      ensures ok ==> forall key <- rows ::
                rows[key] == if old(rows)[key].status == move.from && Text.EqualFold(key.ticket, move.ticket) && Text.EqualFold(key.repo, move.repo)
                             then old(rows)[key].(status := move.to, addressedAt := move.addressedAt) else old(rows)[key]
      ensures !ok ==> exists done: set<Key> :: (forall key <- done :: key in old(rows) && lands(key)) && rows == MovedIn(old(rows), done, move)
    {
      var table := rows;
      var remaining := set key <- table | table[key].status == move.from;
      ghost var done: set<Key> := {};
      assert MovedIn(table, {}, move) == table;
      while remaining != {}
        invariant remaining <= table.Keys && done !! remaining && rows == MovedIn(table, done, move)
        invariant forall key <- table :: Moves(table, key, move) ==> key in done || key in remaining
        invariant forall key <- remaining :: table[key].status == move.from
        invariant forall key <- done :: key in table && Moves(table, key, move) && lands(key)
        decreases remaining
      {
        var key :| key in remaining;
        remaining := remaining - {key};
        if Concerns(key, move.ticket, move.repo) {
          assert Moves(table, key, move);
          if !lands(key) { return false; }
          MovedInStep(table, done, key, move);
          done := done + {key};
          rows := rows[key := table[key].(status := move.to, addressedAt := move.addressedAt)];
        }
      }
      MovedInAll(table, done, move);
      ok := true;
    }
  }

  lemma {:induction false} FailedStays(pass: Pass, sync: Sync, pull: Pull, items: seq<Item>)
    requires pass.failed
    ensures SyncItems(pass, sync, pull, items) == pass
  {
    if |items| > 0 { FailedStays(pass, sync, pull, items[..|items| - 1]); }
  }

  lemma {:induction false} FailedPrefix(pass: Pass, sync: Sync, pull: Pull, items: seq<Item>, i: nat)
    requires i <= |items| && SyncItems(pass, sync, pull, items[..i]).failed
    ensures SyncItems(pass, sync, pull, items) == SyncItems(pass, sync, pull, items[..i])
    decreases |items|
  {
    if i == |items| {
      assert items[..i] == items;
    } else {
      var before := items[..|items| - 1];
      assert before[..i] == items[..i];
      FailedPrefix(pass, sync, pull, before, i);
    }
  }

  lemma {:induction false} ItemsInTwo(pass: Pass, sync: Sync, pull: Pull, a: seq<Item>, b: seq<Item>)
    ensures SyncItems(SyncItems(pass, sync, pull, a), sync, pull, b) == SyncItems(pass, sync, pull, a + b)
  {
    if |b| == 0 {
      assert a + b == a;
    } else {
      assert (a + b)[..|a + b| - 1] == a + b[..|b| - 1];
      ItemsInTwo(pass, sync, pull, a, b[..|b| - 1]);
    }
  }

  lemma {:induction false} AbortIsFinal(pass: Pass, sync: Sync, pulls: seq<Pull>, i: nat)
    requires i <= |pulls| && !SyncPulls(pass, sync, pulls[..i]).ok
    ensures SyncPulls(pass, sync, pulls) == SyncPulls(pass, sync, pulls[..i])
    decreases |pulls|
  {
    if i == |pulls| {
      assert pulls[..i] == pulls;
    } else {
      var before := pulls[..|pulls| - 1];
      assert before[..i] == pulls[..i];
      AbortIsFinal(pass, sync, before, i);
    }
  }
}
