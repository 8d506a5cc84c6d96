/** The reaction bar under a confession: the fold of raw reaction rows into a
    per-emoji aggregate, the toggle that deletes or inserts the viewer's row,
    and the eight buttons rendered from the aggregate.

    The hosted `reactions` table is modelled as an in-memory sequence of rows
    (`ReactionTable`); only its multiset of rows matters to the properties. */
module Reactions {
  import opened Wrappers
  import opened Identifiers

  type Emoji = string

  /** One fetched row, as selected by `select('emoji, user_id')`. */
  type Fetched = (Emoji, UserId)

  /** One row of the remote `reactions` table. */
  datatype Row = Row(confession: ConfessionId, user: UserId, emoji: Emoji)

  /** The aggregate kept per emoji: `{ count, userReacted }`. */
  datatype Tally = Tally(count: nat, userReacted: bool)

  /** The palette the bar renders, in display order:
      face screaming in fear, broken heart, loudly crying face, face with steam
      from nose, exploding head, red heart (with variation selector 16),
      face with tears of joy, folded hands. */
  const Palette: seq<Emoji> := [
    "\U{1F631}", "\U{1F494}", "\U{1F62D}", "\U{1F624}",
    "\U{1F92F}", "\U{2764}\U{FE0F}", "\U{1F602}", "\U{1F64F}"
  ]

  // ---------------------------------------------------------------------------
  // Specification of the aggregate
  // ---------------------------------------------------------------------------

  /** Number of fetched rows that carry emoji `e`. */
  function CountOf(rows: seq<Fetched>, e: Emoji): nat
  {
    if rows == [] then 0
    else CountOf(rows[..|rows| - 1], e) + (if rows[|rows| - 1].0 == e then 1 else 0)
  }

  /** Some fetched row carries emoji `e`. */
  predicate Mentions(rows: seq<Fetched>, e: Emoji)
  {
    exists i :: 0 <= i < |rows| && rows[i].0 == e
  }

  /** A user is signed in and one of the rows is that user's reaction with `e`. */
  predicate ReactedBy(rows: seq<Fetched>, e: Emoji, user: Option<UserId>)
  {
    user.Some? && (e, user.value) in rows
  }

  /** `counts` is the aggregate of `rows` as seen by `user`: a key for exactly
      the emojis that occur, the number of rows per key, and whether the
      signed-in user is among them. */
  ghost predicate Reflects(counts: map<Emoji, Tally>, rows: seq<Fetched>, user: Option<UserId>)
  {
    && (forall e :: e in counts <==> Mentions(rows, e))
    && (forall e :: e in counts ==> counts[e].count == CountOf(rows, e))
    && (forall e :: e in counts ==> (counts[e].userReacted <==> ReactedBy(rows, e, user)))
  }

  /** The keys of the aggregate in insertion order: each emoji once, in
      order of first occurrence. (A JavaScript object lists integer-like keys
      first; emoji are not integer-like.) */
  function Emojis(rows: seq<Fetched>): seq<Emoji>
  {
    if rows == [] then []
    else
      var ks := Emojis(rows[..|rows| - 1]);
      var e := rows[|rows| - 1].0;
      if e in ks then ks else ks + [e]
  }

  predicate Distinct(ks: seq<Emoji>)
  {
    forall i, j :: 0 <= i < j < |ks| ==> ks[i] != ks[j]
  }

  /** Sum of the counts stored under the keys `ks`. */
  function SumCounts(counts: map<Emoji, Tally>, ks: seq<Emoji>): nat
  {
    if ks == [] then 0
    else
      var k := ks[|ks| - 1];
      SumCounts(counts, ks[..|ks| - 1]) + (if k in counts then counts[k].count else 0)
  }

  /** Sum over the keys `ks` of the number of rows carrying each key. */
  function TotalOver(rows: seq<Fetched>, ks: seq<Emoji>): nat
  {
    if ks == [] then 0
    else TotalOver(rows, ks[..|ks| - 1]) + CountOf(rows, ks[|ks| - 1])
  }

  /** How many entries of `ks` equal `e`. */
  function Occurrences(ks: seq<Emoji>, e: Emoji): nat
  {
    if ks == [] then 0
    else Occurrences(ks[..|ks| - 1], e) + (if ks[|ks| - 1] == e then 1 else 0)
  }

  // ---------------------------------------------------------------------------
  // The fold (fetchReactions)
  // ---------------------------------------------------------------------------

  /** The `forEach` of `fetchReactions`: groups the fetched rows by emoji,
      counting them and marking the emojis the signed-in user reacted with.
      `None` stands for a `null` data payload. */
  method GroupByEmoji(data: Option<seq<Fetched>>, user: Option<UserId>) returns (counts: map<Emoji, Tally>)
    ensures data == None ==> counts == map[]
    ensures data.Some? ==> Reflects(counts, data.value, user)
    ensures forall e :: e in counts ==> counts[e].count >= 1
    ensures data.Some? ==> (forall e :: e in counts <==> e in Emojis(data.value))
    ensures data.Some? ==> SumCounts(counts, Emojis(data.value)) == |data.value|
  {
    counts := map[];
    if data.Some? {
      var rows := data.value;
      var i := 0;
      while i < |rows|
        invariant 0 <= i <= |rows|
        invariant Reflects(counts, rows[..i], user)
      {
        var (e, u) := rows[i];
        ReflectsStep(counts, rows, i, user);
        var t := if e in counts then counts[e] else Tally(0, false);
        counts := counts[e := Tally(t.count + 1, t.userReacted || (user.Some? && u == user.value))];
        i := i + 1;
      }
      assert rows[..|rows|] == rows;
      ReflectionFacts(counts, rows, user);
    }
  }

  /** One turn of the `forEach`: adding row `x` to the aggregate of `rows`
      (a fresh entry when its emoji is new, one more in its count, and the
      mark when the row is the signed-in user's) gives the aggregate of
      `rows + [x]`. */
  lemma ReflectsStep(counts: map<Emoji, Tally>, rows: seq<Fetched>, i: nat, user: Option<UserId>)
    requires i < |rows|
    requires Reflects(counts, rows[..i], user)
    ensures var (e, u) := rows[i];
      var t := if e in counts then counts[e] else Tally(0, false);
      Reflects(counts[e := Tally(t.count + 1, t.userReacted || (user.Some? && u == user.value))], rows[..i + 1], user)
  {
    var done, x := rows[..i], rows[i];
    assert rows[..i + 1] == done + [x];
    assert (done + [x])[..|done|] == done;
    MentionsStep(done, x);
    CountOfStep(done, x);
    if x.0 !in counts {
      CountPositiveIffMentioned(done, x.0);
    }
  }

  /** What an aggregate of `rows` says beyond `Reflects`: every count is at
      least one, the keys are the emojis in first-occurrence order, and the
      counts over them add up to the number of rows. */
  lemma ReflectionFacts(counts: map<Emoji, Tally>, rows: seq<Fetched>, user: Option<UserId>)
    requires Reflects(counts, rows, user)
    ensures forall e :: e in counts ==> counts[e].count >= 1
    ensures forall e :: e in counts <==> e in Emojis(rows)
    ensures SumCounts(counts, Emojis(rows)) == |rows|
  {
    forall e | e in counts ensures counts[e].count >= 1 {
      CountPositiveIffMentioned(rows, e);
    }
    EmojisExactlyMentioned(rows);
    SumCountsOfReflection(counts, rows, user, Emojis(rows));
    CountsSumToRows(rows);
  }

  lemma MentionsStep(rows: seq<Fetched>, x: Fetched)
    ensures forall e :: Mentions(rows + [x], e) <==> Mentions(rows, e) || x.0 == e
  {
    forall e | Mentions(rows, e) ensures Mentions(rows + [x], e) {
      var i :| 0 <= i < |rows| && rows[i].0 == e;
      assert (rows + [x])[i] == rows[i];
    }
    forall e | x.0 == e ensures Mentions(rows + [x], e) {
      assert (rows + [x])[|rows|] == x;
    }
    forall e | Mentions(rows + [x], e) && x.0 != e ensures Mentions(rows, e) {
      var i :| 0 <= i < |rows + [x]| && (rows + [x])[i].0 == e;
      assert i < |rows| && rows[i] == (rows + [x])[i];
    }
  }

  lemma CountOfStep(rows: seq<Fetched>, x: Fetched)
    ensures forall e :: CountOf(rows + [x], e) == CountOf(rows, e) + (if x.0 == e then 1 else 0)
  {
  }

  /** An emoji's count is positive exactly when some row carries it, so every
      stored count is at least one. */
  lemma {:induction false} CountPositiveIffMentioned(rows: seq<Fetched>, e: Emoji)
    ensures CountOf(rows, e) > 0 <==> Mentions(rows, e)
  {
    if rows != [] {
      var init, x := rows[..|rows| - 1], rows[|rows| - 1];
      assert rows == init + [x];
      CountPositiveIffMentioned(init, e);
      MentionsStep(init, x);
    }
  }

  /** The key sequence lists each emoji that occurs, once. */
  lemma {:induction false} EmojisExactlyMentioned(rows: seq<Fetched>)
    ensures forall e :: e in Emojis(rows) <==> Mentions(rows, e)
    ensures Distinct(Emojis(rows))
  {
    if rows != [] {
      var init, x := rows[..|rows| - 1], rows[|rows| - 1];
      assert rows == init + [x];
      EmojisExactlyMentioned(init);
      MentionsStep(init, x);
    }
  }

  lemma {:induction false} OccurrencesInDistinct(ks: seq<Emoji>, e: Emoji)
    requires Distinct(ks)
    ensures Occurrences(ks, e) == if e in ks then 1 else 0
  {
    if ks != [] {
      var init := ks[..|ks| - 1];
      assert ks == init + [ks[|ks| - 1]];
      OccurrencesInDistinct(init, e);
    }
  }

  /** Appending one row adds one to the total once per occurrence of its emoji among the keys. */
  lemma {:induction false} TotalOverStep(rows: seq<Fetched>, x: Fetched, ks: seq<Emoji>)
    ensures TotalOver(rows + [x], ks) == TotalOver(rows, ks) + Occurrences(ks, x.0)
  {
    if ks != [] {
      TotalOverStep(rows, x, ks[..|ks| - 1]);
      assert (rows + [x])[..|rows + [x]| - 1] == rows;
    }
  }

  /** Counting every occurring emoji once accounts for every fetched row. */
  lemma {:induction false} CountsSumToRows(rows: seq<Fetched>)
    ensures TotalOver(rows, Emojis(rows)) == |rows|
  {
    if rows != [] {
      var init, x := rows[..|rows| - 1], rows[|rows| - 1];
      assert rows == init + [x];
      var ks := Emojis(init);
      CountsSumToRows(init);
      EmojisExactlyMentioned(init);
      TotalOverStep(init, x, ks);
      OccurrencesInDistinct(ks, x.0);
      if x.0 !in ks {
        assert Emojis(rows) == ks + [x.0];
        assert (ks + [x.0])[..|ks|] == ks;
        CountPositiveIffMentioned(init, x.0);
      }
    }
  }

  lemma {:induction false} SumCountsOfReflection(counts: map<Emoji, Tally>, rows: seq<Fetched>, user: Option<UserId>, ks: seq<Emoji>)
    requires Reflects(counts, rows, user)
    ensures SumCounts(counts, ks) == TotalOver(rows, ks)
  {
    if ks != [] {
      SumCountsOfReflection(counts, rows, user, ks[..|ks| - 1]);
      CountPositiveIffMentioned(rows, ks[|ks| - 1]);
    }
  }

  // ---------------------------------------------------------------------------
  // The remote table and the toggle decision
  // ---------------------------------------------------------------------------

  /** `select('emoji, user_id').eq('confession_id', c)`: the rows of one
      confession, in table order. */
  function Select(rows: seq<Row>, c: ConfessionId): (fetched: seq<Fetched>)
    ensures |fetched| <= |rows|
    ensures forall x :: x in fetched <==> Row(c, x.1, x.0) in rows
    ensures forall x :: multiset(fetched)[x] == multiset(rows)[Row(c, x.1, x.0)]
  {
    if rows == [] then []
    else
      var init, r := rows[..|rows| - 1], rows[|rows| - 1];
      assert rows == init + [r];
      Select(init, c) + (if r.confession == c then [(r.emoji, r.user)] else [])
  }

  /** `delete().eq('confession_id', ..).eq('user_id', ..).eq('emoji', ..)`:
      every row equal to `t` is removed. */
  function Without(rows: seq<Row>, t: Row): (kept: seq<Row>)
    ensures multiset(kept) == multiset(rows)[t := 0]
  {
    if rows == [] then []
    else
      var init, r := rows[..|rows| - 1], rows[|rows| - 1];
      assert rows == init + [r];
      Without(init, t) + (if r == t then [] else [r])
  }

  /** The request a toggle sends to the table. */
  datatype Write = Remove(target: Row) | Add(target: Row)

  /** The table after the store accepts `w`. */
  function ApplyWrite(rows: seq<Row>, w: Write): (after: seq<Row>)
    ensures w.Remove? ==> multiset(after) == multiset(rows)[w.target := 0]
    ensures w.Add? ==> multiset(after) == multiset(rows) + multiset{w.target}
  {
    match w
    case Remove(t) => Without(rows, t)
    case Add(t) => rows + [t]
  }

  /** The decision of `toggleReaction`: delete when the aggregate says the
      user reacted with `e`, insert otherwise (a missing key reads as not
      reacted). */
  function Decide(reactions: map<Emoji, Tally>, c: ConfessionId, u: UserId, e: Emoji): (w: Write)
    ensures w.target == Row(c, u, e)
    ensures w.Remove? <==> e in reactions && reactions[e].userReacted
  {
    var t := Row(c, u, e);
    if e in reactions && reactions[e].userReacted then Remove(t) else Add(t)
  }

  /** The write that flips the presence of triple `t` in the table. */
  function Flip(rows: seq<Row>, t: Row): Write
  {
    if t in rows then Remove(t) else Add(t)
  }

  /** With an aggregate that reflects the table, the toggle deletes exactly
      when the triple is stored, and inserts exactly when it is not. */
  lemma DecideFollowsTable(reactions: map<Emoji, Tally>, rows: seq<Row>, c: ConfessionId, u: UserId, e: Emoji)
    requires Reflects(reactions, Select(rows, c), Some(u))
    ensures Decide(reactions, c, u, e) == Flip(rows, Row(c, u, e))
  {
  }

  /** A toggle on a current aggregate flips the triple's presence and keeps
      at most one row per triple. */
  lemma FlipToggles(rows: seq<Row>, t: Row)
    requires multiset(rows)[t] <= 1
    ensures var after := ApplyWrite(rows, Flip(rows, t));
      && (t in after <==> t !in rows)
      && multiset(after)[t] <= 1
      && (forall r :: r != t ==> multiset(after)[r] == multiset(rows)[r])
  {
  }

  /** Two toggles of the same triple, with a refetch in between, give back
      the original rows (up to order). */
  lemma DoubleFlipRestores(rows: seq<Row>, t: Row)
    requires multiset(rows)[t] <= 1
    ensures var once := ApplyWrite(rows, Flip(rows, t));
      multiset(ApplyWrite(once, Flip(once, t))) == multiset(rows)
  {
  }

  lemma {:induction false} CountOfAppend(p: seq<Fetched>, q: seq<Fetched>, e: Emoji)
    ensures CountOf(p + q, e) == CountOf(p, e) + CountOf(q, e)
  {
    if q != [] {
      var init, x := q[..|q| - 1], q[|q| - 1];
      assert (p + q)[..|p + q| - 1] == p + init;
      assert (p + q)[|p + q| - 1] == x;
      CountOfAppend(p, init, e);
    } else {
      assert p + q == p;
    }
  }

  lemma {:induction false} SelectAppend(p: seq<Row>, q: seq<Row>, c: ConfessionId)
    ensures Select(p + q, c) == Select(p, c) + Select(q, c)
  {
    if q != [] {
      var init, x := q[..|q| - 1], q[|q| - 1];
      assert (p + q)[..|p + q| - 1] == p + init;
      assert (p + q)[|p + q| - 1] == x;
      SelectAppend(p, init, c);
    } else {
      assert p + q == p;
    }
  }

  /** The per-emoji count of a confession's rows depends only on the
      multiset of table rows, not on their order. */
  lemma {:induction false} CountIgnoresOrder(a: seq<Row>, b: seq<Row>, c: ConfessionId, e: Emoji)
    requires multiset(a) == multiset(b)
    ensures CountOf(Select(a, c), e) == CountOf(Select(b, c), e)
    decreases |a|
  {
    if a == [] {
      assert |b| == |multiset(b)| == 0;
    } else {
      var init, x := a[..|a| - 1], a[|a| - 1];
      assert a == init + [x];
      assert x in multiset(b);
      var i :| 0 <= i < |b| && b[i] == x;
      var rest := b[..i] + b[i + 1..];
      assert b == b[..i] + [x] + b[i + 1..];
      assert multiset(b) == multiset(b[..i]) + multiset([x]) + multiset(b[i + 1..]);
      assert multiset(a) == multiset(init) + multiset([x]);
      assert multiset(rest) == multiset(b[..i]) + multiset(b[i + 1..]);
      assert multiset(rest) == multiset(b) - multiset{x};
      assert multiset(init) == multiset(a) - multiset{x};
      CountIgnoresOrder(init, rest, c, e);
      SelectAppend(init, [x], c);
      CountOfAppend(Select(init, c), Select([x], c), e);
      SelectAppend(b[..i] + [x], b[i + 1..], c);
      SelectAppend(b[..i], [x], c);
      SelectAppend(b[..i], b[i + 1..], c);
      CountOfAppend(Select(b[..i], c) + Select([x], c), Select(b[i + 1..], c), e);
      CountOfAppend(Select(b[..i], c), Select([x], c), e);
      CountOfAppend(Select(b[..i], c), Select(b[i + 1..], c), e);
    }
  }

  /** An aggregate that reflects one ordering of the table reflects every
      ordering of the same rows. */
  lemma ReflectsIgnoresOrder(m: map<Emoji, Tally>, a: seq<Row>, b: seq<Row>, c: ConfessionId, user: Option<UserId>)
    requires multiset(a) == multiset(b)
    requires Reflects(m, Select(a, c), user)
    ensures Reflects(m, Select(b, c), user)
  {
    forall e ensures CountOf(Select(a, c), e) == CountOf(Select(b, c), e)
      && (Mentions(Select(a, c), e) <==> Mentions(Select(b, c), e))
      && (ReactedBy(Select(a, c), e, user) <==> ReactedBy(Select(b, c), e, user))
    {
      CountIgnoresOrder(a, b, c, e);
      CountPositiveIffMentioned(Select(a, c), e);
      CountPositiveIffMentioned(Select(b, c), e);
      if user.Some? {
        assert Row(c, user.value, e) in a <==> Row(c, user.value, e) in multiset(a);
        assert Row(c, user.value, e) in b <==> Row(c, user.value, e) in multiset(b);
      }
    }
  }

  /** The aggregate is a function of the fetched rows: two maps that reflect
      the same rows are equal. */
  lemma ReflectsDetermines(m1: map<Emoji, Tally>, m2: map<Emoji, Tally>, rows: seq<Fetched>, user: Option<UserId>)
    requires Reflects(m1, rows, user) && Reflects(m2, rows, user)
    ensures m1 == m2
  {
  }

  // ---------------------------------------------------------------------------
  // Rendering
  // ---------------------------------------------------------------------------

  /** One button of the bar. */
  datatype Button = Button(emoji: Emoji, count: nat, reacted: bool, countShown: bool, enabled: bool)

  /** The lookups of the render: a missing key reads as count 0, not reacted;
      the count label appears only for a positive count; every button is
      disabled while a toggle is in flight. */
  function ButtonFor(reactions: map<Emoji, Tally>, loading: bool, e: Emoji): (b: Button)
    ensures b.emoji == e
    ensures e in reactions ==> b.count == reactions[e].count && (b.reacted <==> reactions[e].userReacted)
    ensures e !in reactions ==> b.count == 0 && !b.reacted && !b.countShown
    ensures b.countShown <==> b.count > 0
    ensures b.enabled <==> !loading
  {
    var count := if e in reactions then reactions[e].count else 0;
    var reacted := e in reactions && reactions[e].userReacted;
    Button(e, count, reacted, count > 0, !loading)
  }

  /** The bar: one button per palette emoji, in palette order. */
  function Render(reactions: map<Emoji, Tally>, loading: bool): (bs: seq<Button>)
    ensures |bs| == |Palette|
    ensures forall i :: 0 <= i < |bs| ==> bs[i].emoji == Palette[i]
    ensures forall i :: 0 <= i < |bs| ==> bs[i] == ButtonFor(reactions, loading, Palette[i])
  {
    seq(|Palette|, i requires 0 <= i < |Palette| => ButtonFor(reactions, loading, Palette[i]))
  }

  /** Rendering a current aggregate shows, for each palette emoji, the number
      of rows with that emoji, a label exactly when there is one, and the
      highlight exactly when the signed-in user is among them; rows with an
      emoji outside the palette are not shown. */
  lemma RenderShowsRows(reactions: map<Emoji, Tally>, rows: seq<Fetched>, user: Option<UserId>, loading: bool)
    requires Reflects(reactions, rows, user)
    ensures var bs := Render(reactions, loading);
      forall i :: 0 <= i < |bs| ==>
        && bs[i].emoji == Palette[i]
        && bs[i].count == CountOf(rows, Palette[i])
        && (bs[i].countShown <==> Mentions(rows, Palette[i]))
        && (bs[i].reacted <==> ReactedBy(rows, Palette[i], user))
  {
    var bs := Render(reactions, loading);
    forall i | 0 <= i < |bs|
      ensures bs[i].count == CountOf(rows, Palette[i])
      ensures bs[i].countShown <==> Mentions(rows, Palette[i])
      ensures bs[i].reacted <==> ReactedBy(rows, Palette[i], user)
    {
      var e := Palette[i];
      CountPositiveIffMentioned(rows, e);
      if ReactedBy(rows, e, user) {
        var k :| 0 <= k < |rows| && rows[k] == (e, user.value);
        assert Mentions(rows, e);
      }
    }
  }

  // ---------------------------------------------------------------------------
  // State: the remote table and the component
  // ---------------------------------------------------------------------------

  /** The hosted `reactions` table. */
  class ReactionTable {
    var rows: seq<Row>

    constructor (rows: seq<Row>)
      ensures this.rows == rows
    {
      this.rows := rows;
    }

    /** A delete or insert request; `ok` is whether the store accepted it.
        A rejected request leaves the table as it was. */
    method Perform(w: Write, ok: bool)
      modifies this
      ensures rows == if ok then ApplyWrite(old(rows), w) else old(rows)
    {
      if ok {
        rows := ApplyWrite(rows, w);
      }
    }
  }

  /** One mounted `ReactionBar`: its confession, the signed-in user (if any),
      the aggregate it last fetched and the in-flight flag. */
  class ReactionBar {
    const confession: ConfessionId
    const user: Option<UserId>
    const table: ReactionTable
    var reactions: map<Emoji, Tally>
    var loading: bool

    constructor (confession: ConfessionId, user: Option<UserId>, table: ReactionTable)
      ensures this.confession == confession && this.user == user && this.table == table
      ensures reactions == map[] && !loading
    {
      this.confession := confession;
      this.user := user;
      this.table := table;
      reactions := map[];
      loading := false;
    }

    /** The aggregate reflects the table's current rows for this confession. */
    ghost predicate Current()
      reads this, table
    {
      Reflects(reactions, Select(table.rows, confession), user)
    }

    /** `fetchReactions`: on success the aggregate is recomputed from the
        table; on failure (`ok` false) it is left as it was. */
    method FetchReactions(ok: bool)
      modifies this`reactions
      ensures ok ==> Current()
      ensures !ok ==> reactions == old(reactions)
    {
      if ok {
        reactions := GroupByEmoji(Some(Select(table.rows, confession)), user);
      }
    }

    /** The synchronous head of `toggleReaction`, up to its first `await`:
        nothing without a user or while a toggle is in flight; otherwise set
        `loading` and choose the request from the current aggregate. */
    method BeginToggle(e: Emoji) returns (pending: Option<Write>)
      modifies this`loading
      ensures old(user.None? || loading) ==> pending == None && loading == old(loading)
      ensures user.Some? && !old(loading) ==>
        pending == Some(Decide(reactions, confession, user.value, e)) && loading
    {
      if user.None? || loading {
        return None;
      }
      loading := true;
      pending := Some(Decide(reactions, confession, user.value, e));
    }

    /** The rest of `toggleReaction`: send the request; when the store accepts
        it, refetch; in every case clear `loading` (the `finally`). */
    method CompleteToggle(w: Write, writeOk: bool, fetchOk: bool)
      modifies this`reactions, this`loading, table
      ensures table.rows == if writeOk then ApplyWrite(old(table.rows), w) else old(table.rows)
      ensures writeOk && fetchOk ==> Current()
      ensures !(writeOk && fetchOk) ==> reactions == old(reactions)
      ensures !loading
    {
      table.Perform(w, writeOk);
      if writeOk {
        FetchReactions(fetchOk);
      }
      loading := false;
    }

    /** `toggleReaction(e)` run to completion with no other event in between. */
    method ToggleReaction(e: Emoji, writeOk: bool, fetchOk: bool)
      modifies this`reactions, this`loading, table
      ensures old(user.None? || loading) ==>
        reactions == old(reactions) && loading == old(loading) && table.rows == old(table.rows)
      ensures user.Some? && !old(loading) ==>
        && table.rows == (if writeOk then ApplyWrite(old(table.rows), Decide(old(reactions), confession, user.value, e))
                          else old(table.rows))
        && (writeOk && fetchOk ==> Current())
        && (!(writeOk && fetchOk) ==> reactions == old(reactions))
        && !loading
    {
      var pending := BeginToggle(e);
      if pending.Some? {
        CompleteToggle(pending.value, writeOk, fetchOk);
      }
    }
  }

  /** A user toggles the same emoji twice, both requests and both refetches
      succeeding, starting from a current aggregate and at most one row for
      the triple: the table holds the same rows as before and the aggregate
      is the one it started with. */
  method DoubleToggle(bar: ReactionBar, e: Emoji)
    requires bar.user.Some? && !bar.loading && bar.Current()
    requires multiset(bar.table.rows)[Row(bar.confession, bar.user.value, e)] <= 1
    modifies bar`reactions, bar`loading, bar.table
    ensures multiset(bar.table.rows) == old(multiset(bar.table.rows))
    ensures bar.reactions == old(bar.reactions) && !bar.loading
  {
    var t := Row(bar.confession, bar.user.value, e);
    ghost var rows0, agg0 := bar.table.rows, bar.reactions;
    DecideFollowsTable(bar.reactions, bar.table.rows, bar.confession, bar.user.value, e);
    bar.ToggleReaction(e, true, true);
    ghost var rows1 := bar.table.rows;
    FlipToggles(rows0, t);
    DecideFollowsTable(bar.reactions, bar.table.rows, bar.confession, bar.user.value, e);
    bar.ToggleReaction(e, true, true);
    DoubleFlipRestores(rows0, t);
    ReflectsIgnoresOrder(agg0, rows0, bar.table.rows, bar.confession, bar.user);
    ReflectsDetermines(agg0, bar.reactions, Select(bar.table.rows, bar.confession), bar.user);
  }
}
