/** `printfLogger` of runtime/src/printfLogger.cpp: the runtime's on-screen log, a buffer of
    at most 50 messages, each with a lifetime in seconds, and a cached concatenation of them
    that is rebuilt only when the buffer changed.  Echoing to standard output is not
    modelled; lifetimes are `real`. */
module PrintfLogger {

  /** The most messages the buffer keeps. */
  const MaxLogs: int := 50

  /** The lifetime a new message starts with, in seconds. */
  const InitialLife: real := 3.0

  /** One message and its remaining lifetime. */
  datatype LogEntry = LogEntry(str: string, life: real)

  /** The messages' text, in order: what `getLines` returns. */
  function Lines(logs: seq<LogEntry>): (s: string)
    ensures |logs| == 0 ==> s == ""
  {
    if logs == [] then "" else Lines(logs[..|logs| - 1]) + logs[|logs| - 1].str
  }

  /** The entries that `removeOldLogs(dt)` keeps: every lifetime goes down by `dt`, and the
      entries whose lifetime becomes negative go, the others keeping their order. */
  function Survivors(logs: seq<LogEntry>, dt: real): (kept: seq<LogEntry>)
    ensures |kept| <= |logs|
  {
    if logs == [] then []
    else
      var last := logs[|logs| - 1];
      var rest := Survivors(logs[..|logs| - 1], dt);
      if last.life - dt < 0.0 then rest else rest + [last.(life := last.life - dt)]
  }

  /** No kept entry has a negative lifetime. */
  lemma {:induction false} SurvivorsLive(logs: seq<LogEntry>, dt: real)
    ensures forall e :: e in Survivors(logs, dt) ==> e.life >= 0.0
  {
    if logs != [] {
      SurvivorsLive(logs[..|logs| - 1], dt);
    }
  }

  /** Concatenation of the text distributes over appending entries. */
  lemma {:induction false} LinesAppend(a: seq<LogEntry>, b: seq<LogEntry>)
    ensures Lines(a + b) == Lines(a) + Lines(b)
    decreases |b|
  {
    if b == [] {
      assert a + b == a;
    } else {
      var n := |b| - 1;
      assert (a + b)[..|a + b| - 1] == a + b[..n];
      LinesAppend(a, b[..n]);
    }
  }

  /** Dropping the oldest message drops its text from the front of the lines. */
  lemma DropOldestLines(logs: seq<LogEntry>)
    requires logs != []
    ensures Lines(logs) == logs[0].str + Lines(logs[1..])
  {
    LinesAppend([logs[0]], logs[1..]);
    assert [logs[0]] + logs[1..] == logs;
    assert Lines([logs[0]]) == Lines([]) + logs[0].str;
  }

  /** Every message `dt` older. */
  function Aged(logs: seq<LogEntry>, dt: real): (aged: seq<LogEntry>)
    ensures |aged| == |logs|
    ensures forall i :: 0 <= i < |logs| ==> aged[i] == logs[i].(life := logs[i].life - dt)
  {
    seq(|logs|, i requires 0 <= i < |logs| => logs[i].(life := logs[i].life - dt))
  }

  /** When no message outlives its lifetime, `removeOldLogs` only ages them. */
  lemma {:induction false} NothingExpires(logs: seq<LogEntry>, dt: real)
    requires forall i :: 0 <= i < |logs| ==> logs[i].life >= dt
    ensures Survivors(logs, dt) == Aged(logs, dt)
  {
    if logs != [] {
      var n := |logs| - 1;
      NothingExpires(logs[..n], dt);
      assert Aged(logs, dt) == Aged(logs[..n], dt) + [logs[n].(life := logs[n].life - dt)];
    }
  }

  /** Ageing does not change the text. */
  lemma {:induction false} AgedLines(logs: seq<LogEntry>, dt: real)
    ensures Lines(Aged(logs, dt)) == Lines(logs)
  {
    if logs != [] {
      var n := |logs| - 1;
      AgedLines(logs[..n], dt);
      assert Aged(logs, dt)[..n] == Aged(logs[..n], dt);
    }
  }

  /** One more entry visited by `removeOldLogs`. */
  lemma SurvivorsStep(logs: seq<LogEntry>, k: int, dt: real)
    requires 0 <= k < |logs|
    ensures Survivors(logs[..k + 1], dt) ==
            Survivors(logs[..k], dt) + (if logs[k].life - dt < 0.0 then [] else [logs[k].(life := logs[k].life - dt)])
  {
    assert logs[..k + 1][..k] == logs[..k];
  }

  /** Every kept entry comes from an entry of the buffer, `dt` older. */
  lemma {:induction false} SurvivorsFromBuffer(logs: seq<LogEntry>, dt: real)
    ensures forall e :: e in Survivors(logs, dt) ==> e.(life := e.life + dt) in logs
  {
    if logs != [] {
      var n := |logs| - 1;
      SurvivorsFromBuffer(logs[..n], dt);
      forall e | e in Survivors(logs, dt) ensures e.(life := e.life + dt) in logs {
        if e in Survivors(logs[..n], dt) {
          assert e.(life := e.life + dt) in logs[..n];
        } else {
          assert e == logs[n].(life := logs[n].life - dt);
          assert e.(life := e.life + dt) == logs[n];
        }
      }
    }
  }

  /** An entry whose aged lifetime is non-negative is kept. */
  lemma {:induction false} LiveEntryKept(logs: seq<LogEntry>, dt: real, i: int)
    requires 0 <= i < |logs| && logs[i].life - dt >= 0.0
    ensures logs[i].(life := logs[i].life - dt) in Survivors(logs, dt)
  {
    var n := |logs| - 1;
    if i < n {
      LiveEntryKept(logs[..n], dt, i);
    }
  }

  class PrintfLogger {
    var isStale: bool
    var text: string
    var logs: seq<LogEntry>

    /** The buffer is bounded, and the cached text is current unless marked stale. */
    predicate Valid()
      reads this
    {
      |logs| <= MaxLogs && (!isStale ==> text == Lines(logs))
    }

    constructor ()
      ensures Valid() && logs == [] && !isStale
    {
      isStale := false;
      text := "";
      logs := [];
    }

    /** `log`: append the message with a fresh lifetime; past 50 messages the oldest goes. */
    method Log(str: string)
      requires Valid()
      modifies this
      ensures Valid() && isStale && text == old(text)
      ensures var appended := old(logs) + [LogEntry(str, InitialLife)];
              logs == if |appended| > MaxLogs then appended[1..] else appended
    {
      logs := logs + [LogEntry(str, InitialLife)];
      isStale := true;
      if |logs| > MaxLogs {
        logs := logs[1..];
      }
    }

    /** `getLines`: the messages' text, rebuilt only when stale. */
    method GetLines() returns (lines: string)
      requires Valid()
      modifies this
      ensures Valid() && !isStale && logs == old(logs)
      ensures lines == Lines(logs)
      ensures !old(isStale) ==> text == old(text)
    {
      if isStale {
        var acc := "";
        for i := 0 to |logs|
          invariant acc == Lines(logs[..i])
        {
          assert logs[..i + 1][..i] == logs[..i];
          acc := acc + logs[i].str;
        }
        assert logs[..|logs|] == logs;
        text := acc;
        isStale := false;
      }
      lines := text;
    }

    /** `clear`. */
    method Clear()
      requires Valid()
      modifies this
      ensures Valid() && logs == [] && isStale && text == old(text)
    {
      logs := [];
      isStale := true;
    }

    /** `removeOldLogs`: age every message by `deltaTime` and erase in place those whose
      lifetime became negative, stepping back over the erased slot. */
    method RemoveOldLogs(deltaTime: real)
      requires Valid()
      modifies this
      ensures Valid() && text == old(text)
      ensures logs == Survivors(old(logs), deltaTime)
      ensures |logs| < |old(logs)| ==> isStale
      ensures |logs| == |old(logs)| ==> isStale == old(isStale)
    {
      var kept, removed := RemoveExpired(logs, deltaTime);
      logs := kept;
      if removed {
        isStale := true;
      } else if !isStale {
        NothingRemoved(old(logs), deltaTime, kept);
      }
    }
  }

  /** The loop of `removeOldLogs` on the buffer: each entry aged in place and erased, with
      the index stepped back, when its lifetime became negative.  `removed` is whether
      anything was erased. */
  method RemoveExpired(logs0: seq<LogEntry>, deltaTime: real) returns (logs: seq<LogEntry>, removed: bool)
    ensures logs == Survivors(logs0, deltaTime)
    ensures removed <==> |logs| < |logs0|
  {
    logs := logs0;
    removed := false;
    ghost var k := 0;
    var i := 0;
    while i < |logs|
      invariant 0 <= k <= |logs0| && 0 <= i <= |logs|
      invariant logs == Survivors(logs0[..k], deltaTime) + logs0[k..]
      invariant i == |Survivors(logs0[..k], deltaTime)|
      invariant removed <==> i < k
      decreases |logs| - i
    {
      RemoveStep(logs0, k, deltaTime, logs, i);
      ghost var next := Survivors(logs0[..k + 1], deltaTime);
      logs := logs[i := logs[i].(life := logs[i].life - deltaTime)];
      if logs[i].life < 0.0 {
        logs := logs[..i] + logs[i + 1..];
        assert logs == next + logs0[k + 1..] && |next| == i;
        i := i - 1;
        removed := true;
      } else {
        assert logs == next + logs0[k + 1..] && |next| == i + 1;
      }
      i := i + 1;
      k := k + 1;
    }
    assert logs0[..k] == logs0;
  }

  /** One iteration of the loop of `removeOldLogs`: ageing the entry at `i`, and erasing it
      when its lifetime became negative, turns the buffer for `k` visited entries into the
      buffer for `k + 1`. */
  lemma RemoveStep(logs0: seq<LogEntry>, k: int, dt: real, logs: seq<LogEntry>, i: int)
    requires 0 <= k < |logs0|
    requires logs == Survivors(logs0[..k], dt) + logs0[k..]
    requires i == |Survivors(logs0[..k], dt)|
    ensures 0 <= i < |logs| && logs[i] == logs0[k]
    ensures var written := logs[i := logs[i].(life := logs[i].life - dt)];
            var next := Survivors(logs0[..k + 1], dt);
            if written[i].life < 0.0
            then written[..i] + written[i + 1..] == next + logs0[k + 1..] && |next| == i
            else written == next + logs0[k + 1..] && |next| == i + 1
  {
    SurvivorsStep(logs0, k, dt);
    var done := Survivors(logs0[..k], dt);
    var rest := logs0[k + 1..];
    assert logs0[k..] == [logs0[k]] + rest;
    var aged := logs0[k].(life := logs0[k].life - dt);
    AgeAt(done, logs0[k], rest, aged);
    if aged.life < 0.0 {
      EraseAt(done, aged, rest);
      assert done + [] == done;
    }
  }

  /** Writing the aged entry over the next unvisited one. */
  lemma AgeAt(done: seq<LogEntry>, x: LogEntry, rest: seq<LogEntry>, y: LogEntry)
    ensures (done + ([x] + rest))[|done| := y] == done + [y] + rest
  {
  }

  /** Erasing the entry just after the visited ones. */
  lemma EraseAt(done: seq<LogEntry>, y: LogEntry, rest: seq<LogEntry>)
    ensures var s := done + [y] + rest;
            s[..|done|] + s[|done| + 1..] == done + rest
  {
    var s := done + [y] + rest;
    assert s[..|done|] == done;
    assert s[|done| + 1..] == rest;
  }

  /** When `removeOldLogs` removes nothing, the text is unchanged. */
  lemma NothingRemoved(logs: seq<LogEntry>, dt: real, kept: seq<LogEntry>)
    requires kept == Survivors(logs, dt) && |kept| == |logs|
    ensures Lines(kept) == Lines(logs)
  {
    AllLive(logs, dt);
    NothingExpires(logs, dt);
    AgedLines(logs, dt);
  }

  /** If nothing was removed, every entry outlived the step. */
  lemma {:induction false} AllLive(logs: seq<LogEntry>, dt: real)
    requires |Survivors(logs, dt)| == |logs|
    ensures forall i :: 0 <= i < |logs| ==> logs[i].life >= dt
  {
    if logs != [] {
      var n := |logs| - 1;
      AllLive(logs[..n], dt);
      forall i | 0 <= i < |logs| ensures logs[i].life >= dt {
        if i < n {
          assert logs[i] == logs[..n][i];
        }
      }
    }
  }
}
