/**
 * What one pass of `process_recent_logs` does, as a value: the sequence of
 * effects it has on the outside world (fetches from the audit-log API,
 * writes of the cursor file, posts to the collector), computed from the
 * API's answers and the cursor stored when the pass starts. The driver in
 * module Forwarder is proved to produce exactly this sequence; the lemmas
 * here say what the sequence guarantees.
 */
module Pass {
  import opened Wrappers

  /**
   * One audit-log event. It is forwarded as it came; only its `@timestamp`
   * is read, for log messages, and reading it panics when it is missing
   * or not a number (`None` here).
   */
  datatype Event = Event(timestampMs: Option<int>, payload: string)

  /** The event's `@timestamp` can be read. */
  predicate Stamped(e: Event)
  {
    e.timestampMs.Some?
  }

  /** A page the forward loop can log: non-empty, its first and last events stamped. */
  predicate Readable(logs: seq<Event>)
  {
    logs != [] && Stamped(logs[0]) && Stamped(logs[|logs| - 1])
  }

  /** The `order` query parameter: "" for the bootstrap call, "asc" for the others. */
  datatype Order = Default | Asc

  /** A page of events and the `after` cursor of its `Link` header ("" when there is none). */
  datatype Page = Page(logs: seq<Event>, after: string)

  /** The audit-log API, answering a request for an order and an `after` cursor. */
  type Source = (Order, string) -> Page

  /** One effect of a pass on the outside world. */
  datatype Effect =
    | Fetched(order: Order, cursor: string)
    | Persisted(cursor: string)
    | Posted(logs: seq<Event>)

  /** The cursor the steady part of a pass starts from: the stored one, or the one bootstrap stores. */
  function Start(api: Source, stored: string): string
  {
    if stored == "" then api(Default, "").after else stored
  }

  /**
   * `chain` lists the forward cursors met after fetching from `cursor`:
   * the first is the `after` of the page fetched from `cursor`, each next
   * one the `after` of the page fetched from the one before, and the last
   * one, only, is "". The pages fetched from the non-empty ones are
   * `Readable` (the pass logs the times of their first and last events).
   */
  predicate Drains(api: Source, cursor: string, chain: seq<string>)
    decreases |chain|
  {
    && |chain| >= 1
    && api(Asc, cursor).after == chain[0]
    && if |chain| == 1 then chain[0] == ""
       else chain[0] != "" && Readable(api(Asc, chain[0]).logs) && Drains(api, chain[0], chain[1..])
  }

  /** One step along a chain that has not reached "": the next page is readable and the rest of the chain drains from its cursor. */
  lemma DrainsStep(api: Source, cursor: string, chain: seq<string>)
    requires Drains(api, cursor, chain) && chain[0] != ""
    ensures |chain| > 1 && Readable(api(Asc, chain[0]).logs)
    ensures api(Asc, chain[0]).after == chain[1] && Drains(api, chain[0], chain[1..])
  {
  }

  /** What `Drains` says about each position of the chain. */
  lemma {:induction false} DrainsAt(api: Source, cursor: string, chain: seq<string>)
    requires Drains(api, cursor, chain)
    ensures chain[|chain| - 1] == "" && api(Asc, cursor).after == chain[0]
    ensures forall i :: 0 <= i < |chain| - 1 ==>
      chain[i] != "" && api(Asc, chain[i]).after == chain[i + 1] && Readable(api(Asc, chain[i]).logs)
    decreases |chain|
  {
    if |chain| > 1 {
      var rest := chain[1..];
      DrainsAt(api, chain[0], rest);
      forall i | 1 <= i < |chain| - 1
        ensures chain[i] != "" && api(Asc, chain[i]).after == chain[i + 1] && Readable(api(Asc, chain[i]).logs)
      {
        assert chain[i] == rest[i - 1] && chain[i + 1] == rest[i];
      }
    }
  }

  /**
   * A pass can run to its end without panicking: the start cursor is
   * non-empty (otherwise bootstrap would repeat forever), the first page is
   * non-empty and its last event stamped (its time is logged), and the
   * chain of forward cursors reaches "" through readable pages.
   */
  predicate CanRun(api: Source, stored: string, chain: seq<string>)
  {
    var start := Start(api, stored);
    var first := api(Asc, start).logs;
    && start != ""
    && first != [] && Stamped(first[|first| - 1])
    && Drains(api, start, chain)
  }

  /** The bootstrap step: fetch with no order and no cursor, store the forward cursor. */
  function Bootstrap(api: Source, stored: string): seq<Effect>
  {
    if stored == "" then [Fetched(Default, ""), Persisted(api(Default, "").after)] else []
  }

  /** One round of the steady loop: store the cursor, fetch the page after it, post that page. */
  function Round(api: Source, cursor: string): seq<Effect>
  {
    [Persisted(cursor), Fetched(Asc, cursor), Posted(api(Asc, cursor).logs)]
  }

  /** The rounds of the steady loop for the given cursors, in order. */
  function Rounds(api: Source, cursors: seq<string>): seq<Effect>
    decreases |cursors|
  {
    if cursors == [] then []
    else Rounds(api, cursors[..|cursors| - 1]) + Round(api, cursors[|cursors| - 1])
  }

  /** The effects of a whole pass. */
  function PassTrace(api: Source, stored: string, chain: seq<string>): seq<Effect>
    requires |chain| >= 1
  {
    Bootstrap(api, stored) + [Fetched(Asc, Start(api, stored))] + Rounds(api, chain[..|chain| - 1])
  }

  /** The cursor stored when a pass ends. */
  function FinalCursor(api: Source, stored: string, chain: seq<string>): string
    requires |chain| >= 1
  {
    if |chain| >= 2 then chain[|chain| - 2] else Start(api, stored)
  }

  /** The pages posted by a sequence of effects, in order. */
  function PostedPages(t: seq<Effect>): seq<seq<Event>>
    decreases |t|
  {
    if t == [] then []
    else PostedPages(t[..|t| - 1]) + (if t[|t| - 1].Posted? then [t[|t| - 1].logs] else [])
  }

  /** The cursors fetched from in ascending order by a sequence of effects, in order. */
  function AscFetches(t: seq<Effect>): seq<string>
    decreases |t|
  {
    if t == [] then []
    else AscFetches(t[..|t| - 1]) + (if t[|t| - 1].Fetched? && t[|t| - 1].order == Asc then [t[|t| - 1].cursor] else [])
  }

  /** The content of the cursor file after a sequence of effects, from `init`. */
  function Stored(init: string, t: seq<Effect>): string
    decreases |t|
  {
    if t == [] then init
    else if t[|t| - 1].Persisted? then t[|t| - 1].cursor
    else Stored(init, t[..|t| - 1])
  }

  // ---------------------------------------------------------------------
  // Facts about the pieces

  /** Round `j` of the steady loop sits at positions 3j, 3j+1, 3j+2. */
  lemma {:induction false} RoundsAt(api: Source, cursors: seq<string>, j: nat)
    requires j < |cursors|
    ensures |Rounds(api, cursors)| == 3 * |cursors|
    ensures Rounds(api, cursors)[3 * j] == Persisted(cursors[j])
    ensures Rounds(api, cursors)[3 * j + 1] == Fetched(Asc, cursors[j])
    ensures Rounds(api, cursors)[3 * j + 2] == Posted(api(Asc, cursors[j]).logs)
    decreases |cursors|
  {
    var init := cursors[..|cursors| - 1];
    if j < |cursors| - 1 {
      RoundsAt(api, init, j);
    } else if init != [] {
      RoundsAt(api, init, 0);
    }
  }

  lemma {:induction false} PostedPagesAppend(a: seq<Effect>, b: seq<Effect>)
    ensures PostedPages(a + b) == PostedPages(a) + PostedPages(b)
    decreases |b|
  {
    if b != [] {
      assert (a + b)[..|a + b| - 1] == a + b[..|b| - 1];
      PostedPagesAppend(a, b[..|b| - 1]);
    } else {
      assert a + b == a;
    }
  }

  lemma {:induction false} AscFetchesAppend(a: seq<Effect>, b: seq<Effect>)
    ensures AscFetches(a + b) == AscFetches(a) + AscFetches(b)
    decreases |b|
  {
    if b != [] {
      assert (a + b)[..|a + b| - 1] == a + b[..|b| - 1];
      AscFetchesAppend(a, b[..|b| - 1]);
    } else {
      assert a + b == a;
    }
  }

  lemma {:induction false} StoredAppend(init: string, a: seq<Effect>, b: seq<Effect>)
    ensures Stored(init, a + b) == Stored(Stored(init, a), b)
    decreases |b|
  {
    if b != [] {
      assert (a + b)[..|a + b| - 1] == a + b[..|b| - 1];
      StoredAppend(init, a, b[..|b| - 1]);
    } else {
      assert a + b == a;
    }
  }

  /** One round posts the page fetched from its cursor, fetches once, and leaves its cursor stored. */
  lemma RoundEffects(api: Source, c: string)
    ensures PostedPages(Round(api, c)) == [api(Asc, c).logs]
    ensures AscFetches(Round(api, c)) == [c]
    ensures forall init :: Stored(init, Round(api, c)) == c
  {
    var r := Round(api, c);
    var r1, r2 := [Persisted(c)], [Persisted(c), Fetched(Asc, c)];
    assert r[..2] == r2 && r2[..1] == r1 && r1[..0] == [];
    assert PostedPages(r1) == PostedPages([]) + [];
    assert AscFetches(r1) == AscFetches([]) + [];
    assert PostedPages(r2) == PostedPages(r1) + [];
    assert AscFetches(r2) == AscFetches(r1) + [c];
    forall init
      ensures Stored(init, r) == c
    {
      assert Stored(init, r2) == c;
    }
  }

  /** The steady rounds post the pages fetched from their cursors, in order. */
  lemma {:induction false} RoundsPost(api: Source, cursors: seq<string>)
    ensures PostedPages(Rounds(api, cursors)) == seq(|cursors|, i requires 0 <= i < |cursors| => api(Asc, cursors[i]).logs)
    decreases |cursors|
  {
    if cursors != [] {
      var init := cursors[..|cursors| - 1];
      var c := cursors[|cursors| - 1];
      RoundsPost(api, init);
      PostedPagesAppend(Rounds(api, init), Round(api, c));
      RoundEffects(api, c);
    }
  }

  /** The steady rounds fetch from their cursors, in order. */
  lemma {:induction false} RoundsFetch(api: Source, cursors: seq<string>)
    ensures AscFetches(Rounds(api, cursors)) == cursors
    decreases |cursors|
  {
    if cursors != [] {
      var init := cursors[..|cursors| - 1];
      var c := cursors[|cursors| - 1];
      RoundsFetch(api, init);
      AscFetchesAppend(Rounds(api, init), Round(api, c));
      RoundEffects(api, c);
    }
  }

  /** After the steady rounds the cursor file holds the last of their cursors. */
  lemma {:induction false} RoundsStore(api: Source, init: string, cursors: seq<string>)
    ensures Stored(init, Rounds(api, cursors)) == if cursors == [] then init else cursors[|cursors| - 1]
  {
    if cursors != [] {
      var c := cursors[|cursors| - 1];
      StoredAppend(init, Rounds(api, cursors[..|cursors| - 1]), Round(api, c));
      RoundEffects(api, c);
    }
  }

  /** If two positions of a chain hold the same cursor, so do all positions the same distance after them. */
  lemma {:induction false} ChainRepeats(api: Source, start: string, chain: seq<string>, i: nat, j: nat, m: nat)
    requires Drains(api, start, chain)
    requires i < j && j + m < |chain|
    ensures chain[i] == chain[j] ==> chain[i + m] == chain[j + m]
    decreases m
  {
    DrainsAt(api, start, chain);
    if m > 0 {
      ChainRepeats(api, start, chain, i, j, m - 1);
      assert chain[i + m] == api(Asc, chain[i + m - 1]).after;
    }
  }

  /**
   * The forward cursors of a pass never repeat and never come back to the
   * cursor the pass started from: the stored cursor only moves forward.
   */
  lemma ChainDistinct(api: Source, start: string, chain: seq<string>)
    requires start != "" && Drains(api, start, chain)
    ensures forall i, j :: 0 <= i < j < |chain| ==> chain[i] != chain[j]
    ensures forall i :: 0 <= i < |chain| ==> chain[i] != start
  {
    DrainsAt(api, start, chain);
    var n := |chain|;
    forall i, j | 0 <= i < j < n
      ensures chain[i] != chain[j]
    {
      ChainRepeats(api, start, chain, i, j, n - 1 - j);
      assert chain[i + (n - 1 - j)] != "";
    }
    forall j | 0 <= j < n
      ensures chain[j] != start
    {
      if j < n - 1 {
        assert chain[0] != chain[j + 1];
        assert api(Asc, chain[j]).after != api(Asc, start).after;
      }
    }
  }

  // ---------------------------------------------------------------------
  // Facts about a whole pass

  /** Bootstrap posts nothing, fetches nothing in ascending order, and leaves the start cursor stored. */
  lemma BootstrapEffects(api: Source, stored: string)
    ensures PostedPages(Bootstrap(api, stored)) == []
    ensures AscFetches(Bootstrap(api, stored)) == []
    ensures Stored(stored, Bootstrap(api, stored)) == Start(api, stored)
  {
    var b := Bootstrap(api, stored);
    if stored == "" {
      var b1 := [Fetched(Default, "")];
      assert b[..1] == b1 && b1[..0] == [];
      assert PostedPages(b1) == PostedPages([]) + [];
      assert AscFetches(b1) == AscFetches([]) + [];
    }
  }

  /** The first ascending fetch posts nothing, is recorded as a fetch, and stores nothing. */
  lemma FirstFetchEffects(init: string, start: string)
    ensures PostedPages([Fetched(Asc, start)]) == []
    ensures AscFetches([Fetched(Asc, start)]) == [start]
    ensures Stored(init, [Fetched(Asc, start)]) == init
  {
    var f := [Fetched(Asc, start)];
    assert f[..0] == [];
    assert PostedPages(f) == PostedPages([]) + [];
    assert AscFetches(f) == AscFetches([]) + [start];
  }

  /**
   * How a pass begins: from an empty cursor file it fetches with no order
   * and no cursor and stores the forward cursor of that page; then it
   * fetches in ascending order from the start cursor.
   */
  lemma PassBegins(api: Source, stored: string, chain: seq<string>)
    requires CanRun(api, stored, chain)
    ensures stored == "" ==>
      && PassTrace(api, stored, chain)[0] == Fetched(Default, "")
      && PassTrace(api, stored, chain)[1] == Persisted(api(Default, "").after)
      && PassTrace(api, stored, chain)[2] == Fetched(Asc, api(Default, "").after)
    ensures stored != "" ==> PassTrace(api, stored, chain)[0] == Fetched(Asc, stored)
  {
  }

  /** The rounds for one more cursor of a chain are those for the ones before it, then its own. */
  lemma RoundsSnoc(api: Source, chain: seq<string>, i: nat)
    requires i < |chain|
    ensures Rounds(api, chain[..i + 1]) == Rounds(api, chain[..i]) + Round(api, chain[i])
  {
    assert chain[..i + 1][..i] == chain[..i];
  }

  /** A post at position `k` of a pass follows the write of its cursor and the fetch from it. */
  lemma PassPostAt(api: Source, stored: string, chain: seq<string>, k: nat)
    requires CanRun(api, stored, chain)
    requires k < |PassTrace(api, stored, chain)| && PassTrace(api, stored, chain)[k].Posted?
    ensures var t := PassTrace(api, stored, chain);
      && 2 <= k
      && t[k - 2].Persisted?
      && t[k - 1] == Fetched(Asc, t[k - 2].cursor)
      && t[k].logs == api(Asc, t[k - 2].cursor).logs
      && Readable(t[k].logs)
      && t[k - 2].cursor != Start(api, stored)
  {
    var start := Start(api, stored);
    DrainsAt(api, start, chain);
    ChainDistinct(api, start, chain);
    var cs := chain[..|chain| - 1];
    var head := Bootstrap(api, stored) + [Fetched(Asc, start)];
    var r := Rounds(api, cs);
    var t := PassTrace(api, stored, chain);
    assert t == head + r;
    if cs != [] {
      RoundsAt(api, cs, 0);
    }
    assert k >= |head|;
    var m := k - |head|;
    var j, q := m / 3, m % 3;
    assert m == 3 * j + q && q < 3 && j < |cs|;
    RoundsAt(api, cs, j);
    assert t[k] == r[m];
    assert q == 2;
    assert cs[j] == chain[j];
    assert t[k - 1] == r[m - 1] && t[k - 2] == r[m - 2];
  }

  /**
   * Every page a pass posts comes right after the write of the cursor it
   * was fetched from and right after that fetch; it is the page the API
   * returned for that cursor, it is non-empty, and the cursor is never
   * the start cursor: the page fetched from the stored cursor is never
   * posted.
   */
  lemma PostAfterPersist(api: Source, stored: string, chain: seq<string>)
    requires CanRun(api, stored, chain)
    ensures var t := PassTrace(api, stored, chain);
      forall k :: 0 <= k < |t| && t[k].Posted? ==>
        && 2 <= k
        && t[k - 2].Persisted?
        && t[k - 1] == Fetched(Asc, t[k - 2].cursor)
        && t[k].logs == api(Asc, t[k - 2].cursor).logs
        && Readable(t[k].logs)
        && t[k - 2].cursor != Start(api, stored)
  {
    var t := PassTrace(api, stored, chain);
    forall k | 0 <= k < |t| && t[k].Posted?
      ensures 2 <= k && t[k - 2].Persisted? && t[k - 1] == Fetched(Asc, t[k - 2].cursor)
      ensures t[k].logs == api(Asc, t[k - 2].cursor).logs && Readable(t[k].logs)
      ensures t[k - 2].cursor != Start(api, stored)
    {
      PassPostAt(api, stored, chain, k);
    }
  }

  /**
   * A pass posts, in fetch order, exactly the pages fetched from the
   * forward cursors it meets before the empty one, the last of them being
   * the page whose forward cursor is empty; each is non-empty.
   */
  lemma PassPosts(api: Source, stored: string, chain: seq<string>)
    requires CanRun(api, stored, chain)
    ensures var posted := PostedPages(PassTrace(api, stored, chain));
      && |posted| == |chain| - 1
      && (forall i :: 0 <= i < |posted| ==> posted[i] == api(Asc, chain[i]).logs && Readable(posted[i]))
      && (|posted| > 0 ==> api(Asc, chain[|posted| - 1]).after == "")
  {
    DrainsAt(api, Start(api, stored), chain);
    var n := |chain|;
    var start := Start(api, stored);
    var cs := chain[..n - 1];
    var b := Bootstrap(api, stored);
    var f := [Fetched(Asc, start)];
    PostedPagesAppend(b + f, Rounds(api, cs));
    PostedPagesAppend(b, f);
    BootstrapEffects(api, stored);
    FirstFetchEffects(stored, start);
    RoundsPost(api, cs);
  }

  /**
   * The stop rule: a pass fetches in ascending order from the start cursor
   * and then from each forward cursor in turn; every fetch but the last
   * returns a non-empty forward cursor, which is the next one fetched
   * from, and the last returns "".
   */
  lemma PassFetches(api: Source, stored: string, chain: seq<string>)
    requires CanRun(api, stored, chain)
    ensures var fetched := AscFetches(PassTrace(api, stored, chain));
      && |fetched| == |chain|
      && fetched[0] == Start(api, stored)
      && (forall i, j :: 0 <= i && j == i + 1 && j < |fetched| ==> api(Asc, fetched[i]).after == fetched[j] != "")
      && api(Asc, fetched[|fetched| - 1]).after == ""
  {
    DrainsAt(api, Start(api, stored), chain);
    var n := |chain|;
    var start := Start(api, stored);
    var cs := chain[..n - 1];
    var b := Bootstrap(api, stored);
    var f := [Fetched(Asc, start)];
    AscFetchesAppend(b + f, Rounds(api, cs));
    AscFetchesAppend(b, f);
    BootstrapEffects(api, stored);
    FirstFetchEffects(stored, start);
    RoundsFetch(api, cs);
    var fetched := AscFetches(PassTrace(api, stored, chain));
    assert fetched == [start] + cs;
    forall i, j | 0 <= i && j == i + 1 && j < n
      ensures api(Asc, fetched[i]).after == fetched[j] != ""
    {
      assert fetched[j] == chain[i];
      if i > 0 {
        assert fetched[i] == chain[i - 1];
      }
    }
  }

  /**
   * At the end of a pass the cursor file holds the last non-empty forward
   * cursor the pass met (the start cursor when it met none), and fetching
   * from it returns the empty forward cursor.
   */
  lemma PassStores(api: Source, stored: string, chain: seq<string>)
    requires CanRun(api, stored, chain)
    ensures Stored(stored, PassTrace(api, stored, chain)) == FinalCursor(api, stored, chain)
    ensures FinalCursor(api, stored, chain) != ""
    ensures api(Asc, FinalCursor(api, stored, chain)).after == ""
  {
    DrainsAt(api, Start(api, stored), chain);
    var n := |chain|;
    var start := Start(api, stored);
    var cs := chain[..n - 1];
    var b := Bootstrap(api, stored);
    var f := [Fetched(Asc, start)];
    StoredAppend(stored, b + f, Rounds(api, cs));
    StoredAppend(stored, b, f);
    BootstrapEffects(api, stored);
    FirstFetchEffects(start, start);
    RoundsStore(api, start, cs);
  }
}
