/**
 * The forwarder itself: the cursor store (`persist_cursor`,
 * `get_last_cursor`), the two calls to the outside world it makes in a
 * pass (`get_enterprise_logs`, `postLogs`) and the driver
 * `process_recent_logs`, as a class whose one real field is the content
 * of the cursor file. A ghost trace records, in order, every effect the
 * forwarder has on the outside world, so the driver can be proved to
 * produce exactly the pass described in module Pass.
 */
module Forwarder {
  import opened Pass

  class LogForwarder {
    /** The content of the cursor file; "" when there is no such file. */
    var cursorFile: string
    /** Every fetch, cursor write and post so far, in order. */
    ghost var trace: seq<Effect>

    /** A forwarder that finds `stored` in its cursor file and has done nothing yet. */
    constructor (stored: string)
      ensures cursorFile == stored
      ensures trace == []
    {
      cursorFile := stored;
      trace := [];
    }

    /** Writes `cursor` to the cursor file, replacing what was there. */
    method PersistCursor(cursor: string)
      modifies this
      ensures cursorFile == cursor
      ensures trace == old(trace) + [Persisted(cursor)]
    {
      cursorFile := cursor;
      trace := trace + [Persisted(cursor)];
    }

    /** Reads the cursor file: the cursor last written, or "" when none was. */
    method GetLastCursor() returns (cursor: string)
      ensures cursor == cursorFile
    {
      cursor := cursorFile;
    }

    /** The cursor store gives back what was written last. */
    method CursorRoundTrip(c: string) returns (read: string)
      modifies this
      ensures read == c
      ensures cursorFile == c
      ensures trace == old(trace) + [Persisted(c)]
    {
      PersistCursor(c);
      read := GetLastCursor();
    }

    /**
     * Asks the audit-log API for the page after `after` in `order`; gives
     * the page's events and the `after` cursor of its `Link` header.
     */
    method GetEnterpriseLogs(api: Source, order: Order, after: string) returns (logs: seq<Event>, next: string)
      modifies this
      ensures logs == api(order, after).logs
      ensures next == api(order, after).after
      ensures cursorFile == old(cursorFile)
      ensures trace == old(trace) + [Fetched(order, after)]
    {
      var page := api(order, after);
      logs, next := page.logs, page.after;
      trace := trace + [Fetched(order, after)];
    }

    /** Sends a page of events to the collector. */
    method PostLogs(logs: seq<Event>)
      modifies this
      ensures cursorFile == old(cursorFile)
      ensures trace == old(trace) + [Posted(logs)]
    {
      trace := trace + [Posted(logs)];
    }

    /**
     * The `for after != ""` loop of a pass: while the last page fetched
     * has a forward cursor, store it, fetch the page after it and post
     * that page. `chain` is the sequence of forward cursors the loop will
     * meet, starting with `after`; it exists only for the proof.
     */
    method ForwardPages(api: Source, after: string, ghost chain: seq<string>)
      requires Drains(api, cursorFile, chain) && after == chain[0]
      modifies this
      ensures trace == old(trace) + Rounds(api, chain[..|chain| - 1])
      ensures cursorFile == if |chain| == 1 then old(cursorFile) else chain[|chain| - 2]
    {
      ghost var trace0, prev := trace, cursorFile;
      var after := after;
      ghost var i := 0;
      assert chain[i..] == chain;
      while after != ""
        invariant 0 <= i < |chain|
        invariant after == chain[i]
        invariant cursorFile == prev
        invariant prev == if i == 0 then old(cursorFile) else chain[i - 1]
        invariant Drains(api, prev, chain[i..])
        invariant trace == trace0 + Rounds(api, chain[..i])
        decreases |chain| - i
      {
        ghost var before, rest := trace, chain[i..];
        DrainsStep(api, prev, rest);
        assert rest[1..] == chain[i + 1..] && rest[1] == chain[i + 1];
        PersistCursor(after);
        prev := after;
        var logs;
        logs, after := GetEnterpriseLogs(api, Asc, after);
        var firstTime, lastTime := logs[0].timestampMs.value, logs[|logs| - 1].timestampMs.value;
        PostLogs(logs);
        assert trace == before + Round(api, prev);
        RoundsSnoc(api, chain, i);
        i := i + 1;
      }
    }

    /**
     * One pass: bootstrap while the cursor file is empty, fetch the page
     * after the stored cursor (it is not posted), then forward the pages
     * after it. `chain` is the sequence of forward cursors the pass will
     * meet; it exists only for the proof.
     */
    method ProcessRecentLogs(api: Source, ghost chain: seq<string>)
      requires CanRun(api, cursorFile, chain)
      modifies this
      ensures trace == old(trace) + PassTrace(api, old(cursorFile), chain)
      ensures cursorFile == FinalCursor(api, old(cursorFile), chain)
    {
      ghost var stored := cursorFile;
      ghost var start := Start(api, stored);
      var cursor := GetLastCursor();
      assert stored != "" ==> old(trace) + Bootstrap(api, stored) == old(trace);
      while cursor == ""
        invariant cursor == "" ==> stored == "" && cursorFile == stored && trace == old(trace)
        invariant cursor != "" ==> cursor == start && cursorFile == start && trace == old(trace) + Bootstrap(api, stored)
        decreases if cursor == "" then 1 else 0
      {
        var _, after := GetEnterpriseLogs(api, Default, "");
        PersistCursor(after);
        cursor := GetLastCursor();
      }
      var logs, after := GetEnterpriseLogs(api, Asc, cursor);
      var lastLogTime := logs[|logs| - 1].timestampMs.value;
      ForwardPages(api, after, chain);
    }
  }
}
