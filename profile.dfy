/** The profile page: the signed-in user's confessions split into active and
    burned, the page statistics, the per-row display rules, and the
    delete-then-reload rule.

    Wall-clock time is an integer; `isPast(burn_after)` at time `now` is
    `burnAfter < now`. The statistics read the clock in the active filter and
    again in the burned filter, so they depend on two instants (`Clock`). The
    remote `confessions` table is a sequence of rows, already in the order
    the store returns them. */
module Profile {
  import opened Wrappers
  import opened Identifiers

  /** A row of `confessions` as far as the page uses it. */
  datatype Confession = Confession(
    id: ConfessionId,
    owner: UserId,
    title: Option<string>,
    content: Option<string>,
    tags: seq<string>,
    burnAfter: int,
    isBurned: bool,
    viewCount: nat)

  /** The four figures at the top of the page. */
  datatype Stats = Stats(total: nat, active: nat, burned: nat, totalViews: nat)

  /** The instants at which the active filter and, after it, the burned filter
      evaluate `isPast`. */
  datatype Clock = Clock(activeAt: int, burnedAt: int)

  const UntitledTitle := "Untitled Confession"
  const PreviewLimit := 150
  const Ellipsis := "..."

  // ---------------------------------------------------------------------------
  // Classification
  // ---------------------------------------------------------------------------

  /** `isPast(new Date(t))` at time `now`. */
  predicate IsPast(t: int, now: int)
  {
    t < now
  }

  /** The `active` filter: not yet past its burn time and not flagged burned. */
  predicate IsActive(c: Confession, now: int)
  {
    !IsPast(c.burnAfter, now) && !c.isBurned
  }

  /** The `burned` filter, which is also each row's `isExpired`: past its burn
      time or flagged burned. At one instant the two are exact complements. */
  predicate IsExpired(c: Confession, now: int)
    ensures IsExpired(c, now) <==> !IsActive(c, now)
    ensures c.isBurned ==> IsExpired(c, now)
  {
    IsPast(c.burnAfter, now) || c.isBurned
  }

  /** `confessions.filter(c => !isPast(..) && !c.is_burned)`: every active
      confession with its multiplicity, and nothing else. */
  function ActiveOnes(cs: seq<Confession>, now: int): (r: seq<Confession>)
    ensures forall c :: multiset(r)[c] == if IsActive(c, now) then multiset(cs)[c] else 0
  {
    if cs == [] then []
    else
      var init, c := cs[..|cs| - 1], cs[|cs| - 1];
      assert cs == init + [c];
      ActiveOnes(init, now) + (if IsActive(c, now) then [c] else [])
  }

  /** `confessions.filter(c => isPast(..) || c.is_burned)`: every expired
      confession with its multiplicity, and nothing else. */
  function BurnedOnes(cs: seq<Confession>, now: int): (r: seq<Confession>)
    ensures forall c :: multiset(r)[c] == if IsExpired(c, now) then multiset(cs)[c] else 0
  {
    if cs == [] then []
    else
      var init, c := cs[..|cs| - 1], cs[|cs| - 1];
      assert cs == init + [c];
      BurnedOnes(init, now) + (if IsExpired(c, now) then [c] else [])
  }

  /** `confessions.reduce((sum, c) => sum + c.view_count, 0)`: no confession
      has more views than the total, and the total is 0 exactly when none has
      been viewed. */
  function TotalViews(cs: seq<Confession>): (n: nat)
    ensures forall c :: c in cs ==> c.viewCount <= n
    ensures n == 0 <==> forall c :: c in cs ==> c.viewCount == 0
  {
    if cs == [] then 0
    else
      var init, c := cs[..|cs| - 1], cs[|cs| - 1];
      assert cs == init + [c];
      TotalViews(init) + c.viewCount
  }

  /** Not flagged burned, and the burn time lies in `[t1, t2)`: active for a
      filter that reads the clock at `t1`, burned for one that reads it at `t2`. */
  predicate Straddles(c: Confession, t1: int, t2: int)
  {
    !c.isBurned && t1 <= c.burnAfter < t2
  }

  /** The confessions whose burn time falls between the two readings. */
  function Straddling(cs: seq<Confession>, t1: int, t2: int): seq<Confession>
  {
    if cs == [] then []
    else
      Straddling(cs[..|cs| - 1], t1, t2)
        + (if Straddles(cs[|cs| - 1], t1, t2) then [cs[|cs| - 1]] else [])
  }

  /** The statistics computed in `loadUserConfessions`. When both filters read
      the same instant, `active + burned == total`; when the burned filter
      reads a later instant, a confession whose burn time falls in between is
      counted in both, and in no other way do the figures exceed the total. */
  function ComputeStats(cs: seq<Confession>, clock: Clock): (s: Stats)
    ensures s.total == |cs|
    ensures s.active == |ActiveOnes(cs, clock.activeAt)| && s.burned == |BurnedOnes(cs, clock.burnedAt)|
    ensures s.totalViews == TotalViews(cs)
    ensures clock.activeAt == clock.burnedAt ==> s.active + s.burned == s.total
    ensures clock.activeAt <= clock.burnedAt ==>
      s.active + s.burned == s.total + |Straddling(cs, clock.activeAt, clock.burnedAt)|
  {
    if clock.activeAt <= clock.burnedAt then
      FiltersAtTwoInstants(cs, clock.activeAt, clock.burnedAt);
      FiltersPartition(cs, clock.activeAt);
      Stats(|cs|, |ActiveOnes(cs, clock.activeAt)|, |BurnedOnes(cs, clock.burnedAt)|, TotalViews(cs))
    else
      Stats(|cs|, |ActiveOnes(cs, clock.activeAt)|, |BurnedOnes(cs, clock.burnedAt)|, TotalViews(cs))
  }

  /** At one instant the two filters split the list: every confession lands in
      exactly one of them, so their sizes add up to the total. */
  lemma FiltersPartition(cs: seq<Confession>, now: int)
    ensures multiset(ActiveOnes(cs, now)) + multiset(BurnedOnes(cs, now)) == multiset(cs)
    ensures |ActiveOnes(cs, now)| + |BurnedOnes(cs, now)| == |cs|
  {
    var a, b := ActiveOnes(cs, now), BurnedOnes(cs, now);
    forall c ensures (multiset(a) + multiset(b))[c] == multiset(cs)[c] {
    }
    assert multiset(a) + multiset(b) == multiset(cs);
    assert |multiset(a)| + |multiset(b)| == |multiset(cs)|;
  }

  /** With the active filter reading the clock at `t1` and the burned filter
      at a later `t2`, every confession is counted at least once, and the
      ones counted twice are exactly those whose burn time lies in `[t1, t2)`. */
  lemma {:induction false} FiltersAtTwoInstants(cs: seq<Confession>, t1: int, t2: int)
    requires t1 <= t2
    ensures |ActiveOnes(cs, t1)| + |BurnedOnes(cs, t2)| == |cs| + |Straddling(cs, t1, t2)|
    ensures t1 == t2 ==> Straddling(cs, t1, t2) == []
  {
    if cs != [] {
      FiltersAtTwoInstants(cs[..|cs| - 1], t1, t2);
    }
  }

  /** A confession with burn time 5 and a clock that moves from 5 to 6
      between the two filters: one confession, one active, one burned. */
  lemma CountedTwice()
    ensures var c := Confession("c", "u", None, None, [], 5, false, 0);
      var s := ComputeStats([c], Clock(5, 6));
      s.total == 1 && s.active == 1 && s.burned == 1
  {
  }

  lemma {:induction false} TotalViewsAppend(a: seq<Confession>, b: seq<Confession>)
    ensures TotalViews(a + b) == TotalViews(a) + TotalViews(b)
  {
    if b != [] {
      var init := b[..|b| - 1];
      assert (a + b)[..|a + b| - 1] == a + init;
      assert (a + b)[|a + b| - 1] == b[|b| - 1];
      TotalViewsAppend(a, init);
    } else {
      assert a + b == a;
    }
  }

  /** The views of the active and of the burned confessions add up to the
      total views. */
  lemma {:induction false} ViewsPartition(cs: seq<Confession>, now: int)
    ensures TotalViews(ActiveOnes(cs, now)) + TotalViews(BurnedOnes(cs, now)) == TotalViews(cs)
  {
    if cs != [] {
      var init, c := cs[..|cs| - 1], cs[|cs| - 1];
      assert cs == init + [c];
      ViewsPartition(init, now);
      TotalViewsAppend(ActiveOnes(init, now), if IsActive(c, now) then [c] else []);
      TotalViewsAppend(BurnedOnes(init, now), if IsExpired(c, now) then [c] else []);
      TotalViewsAppend(init, [c]);
    }
  }

  // ---------------------------------------------------------------------------
  // Per-row display
  // ---------------------------------------------------------------------------

  /** `confession.title || 'Untitled Confession'`: a null or empty title falls
      back to the placeholder; any other title is shown as it is. */
  function DisplayTitle(title: Option<string>): (t: string)
    ensures title == None || title == Some("") ==> t == UntitledTitle
    ensures title.Some? && title.value != "" ==> t == title.value
    ensures t != ""
  {
    if title.Some? && title.value != "" then title.value else UntitledTitle
  }

  /** The content preview: the first 150 characters and "..." when the content
      is longer than 150, the content unchanged otherwise. */
  function Preview(content: string): (p: string)
    ensures |content| <= PreviewLimit ==> p == content
    ensures |content| > PreviewLimit ==> |p| == PreviewLimit + |Ellipsis| && p[PreviewLimit..] == Ellipsis
    ensures |p| <= PreviewLimit + |Ellipsis|
    ensures var n := if |content| < PreviewLimit then |content| else PreviewLimit;
      n <= |p| && p[..n] == content[..n]
  {
    if |content| > PreviewLimit then content[..PreviewLimit] + Ellipsis else content
  }

  /** What one row of the list shows. */
  datatype RowView = RowView(
    title: string,
    preview: Option<string>,
    tags: seq<string>,
    views: nat,
    expired: bool,
    badge: string,
    deletable: bool,
    countdown: bool)

  /** One row: the paragraph is rendered only for non-empty content; an
      expired row shows the "Burned" badge and no delete button, an active row
      the "Active" badge, a countdown and the delete button. */
  function ViewRow(c: Confession, now: int): (v: RowView)
    ensures v.expired <==> IsExpired(c, now)
    ensures v.deletable <==> !v.expired
    ensures v.countdown <==> !v.expired
    ensures v.badge == "Burned" <==> v.expired
    ensures v.preview.Some? <==> c.content.Some? && c.content.value != ""
    ensures v.preview.Some? ==> v.preview.value == Preview(c.content.value)
    ensures v.title == DisplayTitle(c.title)
    ensures !v.expired ==> v.badge == "Active"
    ensures v.tags == c.tags && v.views == c.viewCount
  {
    var expired := IsExpired(c, now);
    RowView(
      DisplayTitle(c.title),
      if c.content.Some? && c.content.value != "" then Some(Preview(c.content.value)) else None,
      c.tags,
      c.viewCount,
      expired,
      if expired then "Burned" else "Active",
      !expired,
      !expired)
  }

  /** The list, one row per confession in the order fetched. */
  function ViewRows(cs: seq<Confession>, now: int): (vs: seq<RowView>)
    ensures |vs| == |cs|
    ensures forall i :: 0 <= i < |cs| ==> vs[i] == ViewRow(cs[i], now)
  {
    seq(|cs|, i requires 0 <= i < |cs| => ViewRow(cs[i], now))
  }

  /** Number of rows that carry the "Burned" badge. */
  function BurnedBadges(vs: seq<RowView>): nat
  {
    if vs == [] then 0
    else BurnedBadges(vs[..|vs| - 1]) + (if vs[|vs| - 1].badge == "Burned" then 1 else 0)
  }

  /** The "Burned" badges at `now` are as many as the burned filter keeps at
      `now`. */
  lemma {:induction false} BadgesCountBurned(cs: seq<Confession>, now: int)
    ensures BurnedBadges(ViewRows(cs, now)) == |BurnedOnes(cs, now)|
  {
    if cs != [] {
      var init := cs[..|cs| - 1];
      BadgesCountBurned(init, now);
      assert ViewRows(cs, now)[..|cs| - 1] == ViewRows(init, now);
    }
  }

  /** Rendered at the one instant both filters read, the list shows the
      "Burned" badge on exactly as many rows as the "Burned" figure, and
      offers a delete button on exactly as many as the "Active" figure. */
  lemma BadgesMatchStats(cs: seq<Confession>, now: int)
    ensures BurnedBadges(ViewRows(cs, now)) == ComputeStats(cs, Clock(now, now)).burned
    ensures |ViewRows(cs, now)| - BurnedBadges(ViewRows(cs, now)) == ComputeStats(cs, Clock(now, now)).active
  {
    BadgesCountBurned(cs, now);
    FiltersPartition(cs, now);
  }

  // ---------------------------------------------------------------------------
  // Loading and deleting
  // ---------------------------------------------------------------------------

  /** What the page holds: the fetched list and the statistics over it. */
  datatype Page = Page(confessions: seq<Confession>, stats: Stats)

  /** The page before anything is loaded. */
  const InitialPage := Page([], Stats(0, 0, 0, 0))

  /** The zeros shown before loading are the statistics of the empty list,
      whatever the clock reads. */
  lemma InitialPageStats(clock: Clock)
    ensures InitialPage.stats == ComputeStats(InitialPage.confessions, clock)
  {
  }

  /** The confessions of `user` in store order: each of them as often as the
      store holds it, and nothing else. */
  function OwnedBy(store: seq<Confession>, user: UserId): (r: seq<Confession>)
    ensures forall c :: multiset(r)[c] == if c.owner == user then multiset(store)[c] else 0
  {
    if store == [] then []
    else
      var init, c := store[..|store| - 1], store[|store| - 1];
      assert store == init + [c];
      OwnedBy(init, user) + (if c.owner == user then [c] else [])
  }

  /** `fetchUserConfessions`: the user's confessions, or the empty list when
      the query fails (`ok` false). */
  function FetchUserConfessions(store: seq<Confession>, user: UserId, ok: bool): (cs: seq<Confession>)
    ensures forall c :: c in cs ==> c in store && c.owner == user
    ensures ok ==> forall c :: c in store && c.owner == user ==> c in cs
    ensures ok ==> forall c :: multiset(cs)[c] == if c.owner == user then multiset(store)[c] else 0
    ensures !ok ==> cs == []
  {
    var owned := OwnedBy(store, user);
    assert forall c :: c in owned ==> multiset(owned)[c] > 0;
    if ok then owned else []
  }

  /** `loadUserConfessions`: nothing without a signed-in user; otherwise the
      fetched list and the statistics over it, read at the instants `clock`. */
  function LoadUserConfessions(page: Page, store: seq<Confession>, user: Option<UserId>, ok: bool, clock: Clock): (p: Page)
    ensures user.None? ==> p == page
    ensures user.Some? ==> p.stats == ComputeStats(p.confessions, clock)
    ensures user.Some? ==> p.confessions == FetchUserConfessions(store, user.value, ok)
  {
    if user.None? then page
    else
      var cs := FetchUserConfessions(store, user.value, ok);
      Page(cs, ComputeStats(cs, clock))
  }

  /** `deleteConfession(id)`: removes the rows with that id when the store
      accepts the request; returns whether it did. */
  function DeleteConfession(store: seq<Confession>, id: ConfessionId, ok: bool): (r: (seq<Confession>, bool))
    ensures r.1 == ok
    ensures ok ==> forall c :: c in r.0 <==> c in store && c.id != id
    ensures ok ==> forall c :: multiset(r.0)[c] == if c.id == id then 0 else multiset(store)[c]
    ensures !ok ==> r.0 == store
  {
    if ok then (WithoutId(store, id), true) else (store, false)
  }

  /** The store with every row of that id removed and the others kept as
      often as it holds them. */
  function WithoutId(store: seq<Confession>, id: ConfessionId): (r: seq<Confession>)
    ensures forall c :: multiset(r)[c] == if c.id == id then 0 else multiset(store)[c]
  {
    if store == [] then []
    else
      var init, c := store[..|store| - 1], store[|store| - 1];
      assert store == init + [c];
      WithoutId(init, id) + (if c.id == id then [] else [c])
  }

  /** `handleDelete(id)`: when the user confirms, ask the store to delete;
      reload the list only when the delete reports success. Returns the store
      and the page afterwards. Without confirmation, or when the delete fails,
      nothing changes. After an accepted delete the store has lost exactly the
      rows with that id; with a signed-in user the page then lists exactly
      their remaining confessions (nothing when the reload fails), with
      statistics over that list; with no user the page stays as it was. */
  function HandleDelete(store: seq<Confession>, page: Page, user: Option<UserId>, id: ConfessionId,
                        confirmed: bool, deleteOk: bool, fetchOk: bool, clock: Clock): (r: (seq<Confession>, Page))
    ensures !(confirmed && deleteOk) ==> r == (store, page)
    ensures confirmed && deleteOk ==> forall c :: c in r.0 <==> c in store && c.id != id
    ensures confirmed && deleteOk ==>
      forall c :: multiset(r.0)[c] == if c.id == id then 0 else multiset(store)[c]
    ensures confirmed && deleteOk && user.None? ==> r.1 == page
    ensures confirmed && deleteOk && user.Some? ==> r.1.stats == ComputeStats(r.1.confessions, clock)
    ensures confirmed && deleteOk && user.Some? && fetchOk ==>
      forall c :: c in r.1.confessions <==> c in store && c.owner == user.value && c.id != id
    ensures confirmed && deleteOk && user.Some? && fetchOk ==>
      forall c :: multiset(r.1.confessions)[c] ==
        if c.owner == user.value && c.id != id then multiset(store)[c] else 0
    ensures confirmed && deleteOk && user.Some? && !fetchOk ==> r.1.confessions == []
  {
    if !confirmed then (store, page)
    else
      var (store', success) := DeleteConfession(store, id, deleteOk);
      if success then (store', LoadUserConfessions(page, store', user, fetchOk, clock))
      else (store', page)
  }
}
