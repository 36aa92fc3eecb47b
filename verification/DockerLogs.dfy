/** The live container log: a window on the last lines of a stream, and the sockets that feed it. */
module DockerLogs {
  import opened Text

  // ----- The window

  const WINDOW := 500

  function LastOf(lines: seq<string>, n: nat): (r: seq<string>)
    ensures |r| == if |lines| > n then n else |lines|
  {
    if |lines| > n then lines[|lines| - n..] else lines
  }

  /** The last n lines of a text. */
  function LastLines(text: string, n: nat): string {
    Join(LastOf(Split(text, '\n'), n), "\n")
  }

  /** A text and a chunk: the last line of the one runs on into the first line of the other. */
  lemma {:induction false} SplitRunsOn(text: string, chunk: string)
    ensures var a, b := Split(text, '\n'), Split(chunk, '\n');
      Split(text + chunk, '\n') == a[..|a| - 1] + [a[|a| - 1] + b[0]] + b[1..]
    decreases |text|
  {
    hide Split, Find;
    var i := Find(text, '\n');
    var b := Split(chunk, '\n');
    if i == |text| {
      SplitNone(text, '\n');
      SplitFirstPiece(text, chunk);
      assert [text][..0] + [text + b[0]] + b[1..] == [text + b[0]] + b[1..];
    } else {
      var head, rest := text[..i], text[i + 1..];
      assert text == head + ['\n'] + rest;
      SplitFirst(head, '\n', rest);
      SplitRunsOn(rest, chunk);
      assert text + chunk == head + ['\n'] + (rest + chunk);
      SplitFirst(head, '\n', rest + chunk);
      var r := Split(rest, '\n');
      var a := Split(text, '\n');
      assert a == [head] + r;
      assert a[..|a| - 1] == [head] + r[..|r| - 1] && a[|a| - 1] == r[|r| - 1];
      assert [head] + (r[..|r| - 1] + [r[|r| - 1] + b[0]] + b[1..])
          == ([head] + r[..|r| - 1]) + [r[|r| - 1] + b[0]] + b[1..];
    }
  }

  lemma SplitFirstPiece(text: string, chunk: string)
    requires '\n' !in text
    ensures var b := Split(chunk, '\n'); Split(text + chunk, '\n') == [text + b[0]] + b[1..]
  {
    hide Split, Find;
    var i := Find(chunk, '\n');
    if i == |chunk| {
      SplitNone(chunk, '\n');
      SplitNone(text + chunk, '\n');
      assert [chunk][1..] == [];
    } else {
      var head, rest := chunk[..i], chunk[i + 1..];
      assert chunk == head + ['\n'] + rest;
      SplitFirst(head, '\n', rest);
      assert text + chunk == (text + head) + ['\n'] + rest;
      SplitFirst(text + head, '\n', rest);
      assert ([head] + Split(rest, '\n'))[1..] == Split(rest, '\n');
    }
  }

  /** Trimming before a chunk arrives makes no difference once it has arrived. */
  lemma WindowForgetsOnlyOldLines(text: string, chunk: string, n: nat)
    requires n > 0
    ensures LastLines(LastLines(text, n) + chunk, n) == LastLines(text + chunk, n)
  {
    hide Split, Join;
    var a, b := Split(text, '\n'), Split(chunk, '\n');
    var kept := LastOf(a, n);
    SplitJoin(kept, '\n');
    SplitRunsOn(text, chunk);
    SplitRunsOn(LastLines(text, n), chunk);
    var whole := a[..|a| - 1] + [a[|a| - 1] + b[0]] + b[1..];
    var windowed := kept[..|kept| - 1] + [kept[|kept| - 1] + b[0]] + b[1..];
    assert kept[|kept| - 1] == a[|a| - 1];
    assert windowed == whole[|whole| - |windowed|..];
    assert LastOf(windowed, n) == LastOf(whole, n);
  }

  function Concat(chunks: seq<string>): string {
    if chunks == [] then "" else chunks[0] + Concat(chunks[1..])
  }

  /** The buffer of one mounted log. */
  class LogWindow {
    var buffer: string
    /** Everything received so far. */
    ghost var stream: string

    ghost predicate Valid()
      reads this
    {
      buffer == LastLines(stream, WINDOW)
    }

    constructor ()
      ensures Valid() && buffer == "" && stream == ""
    {
      buffer, stream := "", "";
      assert Split("", '\n') == [""];
    }

    method OnMessage(data: string)
      requires Valid()
      modifies this
      ensures Valid() && stream == old(stream) + data
      ensures buffer == LastLines(old(stream) + data, WINDOW)
    {
      hide Split, Join;
      buffer := buffer + data;
      var lines := Split(buffer, '\n');
      JoinSplit(buffer, '\n');
      if |lines| > 500 { buffer := Join(lines[|lines| - 500..], "\n"); }
      WindowForgetsOnlyOldLines(stream, data, WINDOW);
      stream := stream + data;
    }
  }

  /** The buffer after a list of chunks, each appended and cut as it comes. */
  function Buffered(buffer: string, chunks: seq<string>): string
    decreases |chunks|
  {
    if chunks == [] then buffer else Buffered(LastLines(buffer + chunks[0], WINDOW), chunks[1..])
  }

  /** However the stream is cut into chunks, the buffer ends as the last 500 lines of the whole stream. */
  lemma {:induction false} BufferIsEndOfStream(stream: string, chunks: seq<string>)
    ensures Buffered(LastLines(stream, WINDOW), chunks) == LastLines(stream + Concat(chunks), WINDOW)
    decreases |chunks|
  {
    hide LastLines;
    if chunks == [] {
      assert stream + "" == stream;
    } else {
      WindowForgetsOnlyOldLines(stream, chunks[0], WINDOW);
      BufferIsEndOfStream(stream + chunks[0], chunks[1..]);
      assert stream + chunks[0] + Concat(chunks[1..]) == stream + (chunks[0] + Concat(chunks[1..]));
    }
  }

  // ----- The sockets

  /** A socket opened for the mount with this token. */
  datatype Socket = Socket(token: nat, closeCalled: bool)

  datatype State = State(
    activeToken: nat, activeWs: Option<nat>, sockets: seq<Socket>, pending: set<nat>, mounts: seq<nat>)

  /** A panel is mounted, the URL for a mount resolves, or the panel is disconnected. */
  datatype Event = Mount | Resolve(token: nat) | Disconnect

  const IDLE := State(0, None, [], {}, [])

  function CloseActive(s: State): State {
    s.(activeToken := s.activeToken + 1, activeWs := None,
       sockets := if s.activeWs.Some? && s.activeWs.value < |s.sockets|
                  then s.sockets[s.activeWs.value := s.sockets[s.activeWs.value].(closeCalled := true)]
                  else s.sockets)
  }

  /** pending holds the mounts whose URL has not resolved; each resolves at most once. */
  function OnEvent(s: State, e: Event): State {
    match e
    case Disconnect => CloseActive(s)
    case Mount =>
      var closed := CloseActive(s);
      var token := closed.activeToken + 1;
      closed.(activeToken := token, pending := closed.pending + {token}, mounts := closed.mounts + [token])
    case Resolve(token) =>
      if token !in s.pending then s
      else
        var rest := s.(pending := s.pending - {token});
        if token != s.activeToken then rest
        else rest.(activeWs := Some(|s.sockets|), sockets := s.sockets + [Socket(token, false)])
  }

  function Run(s: State, events: seq<Event>): State
    decreases |events|
  {
    if events == [] then s else Run(OnEvent(s, events[0]), events[1..])
  }

  /** At most the active socket is open, it belongs to the newest mount, and older mounts can open none. */
  predicate Safe(s: State) {
    && (forall i :: 0 <= i < |s.sockets| && !s.sockets[i].closeCalled ==> s.activeWs == Some(i))
    && (s.activeWs.Some? ==>
          && s.activeWs.value < |s.sockets|
          && s.sockets[s.activeWs.value].token == s.activeToken
          && s.activeToken !in s.pending
          && s.mounts != [] && s.mounts[|s.mounts| - 1] == s.activeToken)
    && (forall i :: 0 <= i < |s.sockets| ==> s.sockets[i].token <= s.activeToken)
    && (forall t :: t in s.pending ==> t <= s.activeToken)
    && (forall t :: t in s.pending ==> t in s.mounts)
    && (forall i :: 0 <= i < |s.mounts| ==> s.mounts[i] <= s.activeToken)
    && (forall i, j :: 0 <= i < j < |s.mounts| ==> s.mounts[i] < s.mounts[j])
  }

  lemma EventKeepsSafe(s: State, e: Event)
    requires Safe(s)
    ensures Safe(OnEvent(s, e))
  {
  }

  /** Over every interleaving of mounts, disconnects and late URLs. */
  lemma {:induction false} RunsAreSafe(s: State, events: seq<Event>)
    requires Safe(s)
    ensures Safe(Run(s, events))
    decreases |events|
  {
    hide Safe, OnEvent;
    if events != [] {
      EventKeepsSafe(s, events[0]);
      RunsAreSafe(OnEvent(s, events[0]), events[1..]);
    }
  }

  /** In every reachable state any two open sockets are one, and it was opened for the newest mount. */
  lemma AtMostOneOpen(events: seq<Event>, i: nat, j: nat)
    requires var s := Run(IDLE, events);
      i < |s.sockets| && j < |s.sockets| && !s.sockets[i].closeCalled && !s.sockets[j].closeCalled
    ensures var s := Run(IDLE, events);
      && i == j && s.activeWs == Some(i)
      && s.mounts != [] && s.sockets[i].token == s.mounts[|s.mounts| - 1] == s.activeToken
  {
    hide OnEvent;
    assert Safe(IDLE);
    RunsAreSafe(IDLE, events);
  }

  /** From s on, no socket is opened for the token. */
  predicate NoneOpened(s: State, later: State, token: nat) {
    && |s.sockets| <= |later.sockets|
    && (forall i :: 0 <= i < |s.sockets| ==> later.sockets[i].token == s.sockets[i].token)
    && (forall i :: |s.sockets| <= i < |later.sockets| ==> later.sockets[i].token != token)
  }

  /** A mount that a newer mount or a disconnect has superseded never opens a socket. */
  lemma {:induction false} SupersededNeverOpens(s: State, token: nat, events: seq<Event>)
    requires token < s.activeToken
    ensures token < Run(s, events).activeToken
    ensures NoneOpened(s, Run(s, events), token)
    decreases |events|
  {
    if events != [] {
      var next := OnEvent(s, events[0]);
      assert NoneOpened(s, next, token);
      SupersededNeverOpens(next, token, events[1..]);
    }
  }

  /** A mount and a disconnect supersede every earlier mount: its URL, however late, opens nothing any more. */
  lemma NothingOpensLate(s: State, e: Event, token: nat, events: seq<Event>)
    requires Safe(s) && !e.Resolve? && token in s.mounts
    ensures var ended := OnEvent(s, e);
      NoneOpened(ended, Run(ended, events), token)
  {
    hide Run, NoneOpened;
    SupersededNeverOpens(OnEvent(s, e), token, events);
  }

  // ----- The newest mount is served

  /** Neither another mount nor a disconnect. */
  predicate LeftAlone(events: seq<Event>) {
    forall e :: e in events ==> e.Resolve?
  }

  lemma {:induction false} WaitsForUrl(s: State, events: seq<Event>)
    requires LeftAlone(events) && Resolve(s.activeToken) !in events
    ensures var later := Run(s, events);
      && later.activeToken == s.activeToken && later.activeWs == s.activeWs && later.sockets == s.sockets
      && (s.activeToken in s.pending ==> s.activeToken in later.pending)
    decreases |events|
  {
    if events != [] {
      assert events[0] in events && forall e :: e in events[1..] ==> e in events;
      WaitsForUrl(OnEvent(s, events[0]), events[1..]);
    }
  }

  lemma {:induction false} RunConcat(s: State, a: seq<Event>, b: seq<Event>)
    ensures Run(s, a + b) == Run(Run(s, a), b)
    decreases |a|
  {
    hide OnEvent;
    if a == [] {
      assert a + b == b;
    } else {
      assert (a + b)[1..] == a[1..] + b;
      RunConcat(OnEvent(s, a[0]), a[1..], b);
    }
  }

  lemma RunOne(s: State, e: Event)
    ensures Run(s, [e]) == OnEvent(s, e)
  {
    hide OnEvent;
    assert [e][1..] == [];
  }

  /** A disconnect, and so a mount, closes whatever is open. */
  lemma DisconnectClosesAll(s: State, e: Event)
    requires Safe(s) && !e.Resolve?
    ensures var after := OnEvent(s, e);
      && after.activeWs == None && |after.sockets| == |s.sockets|
      && forall i :: 0 <= i < |after.sockets| ==> after.sockets[i].closeCalled
  {
  }

  /** After a mount, once its URL resolves with no other mount and no disconnect in between, one more socket is open:
      that of the mount, and the module knows it as the active one. */
  lemma NewestMountOpens(before: seq<Event>, between: seq<Event>)
    requires LeftAlone(between)
    requires Resolve(Run(IDLE, before + [Mount]).activeToken) !in between
    ensures var s, token := Run(IDLE, before), Run(IDLE, before + [Mount]).activeToken;
      var after := Run(IDLE, before + [Mount] + between + [Resolve(token)]);
      && |after.sockets| == |s.sockets| + 1 && after.activeWs == Some(|s.sockets|)
      && after.sockets[|s.sockets|] == Socket(token, false)
      && forall i :: 0 <= i < |s.sockets| ==> after.sockets[i].closeCalled && after.sockets[i].token < token
  {
    hide OnEvent, Safe, Run, LeftAlone;
    var s := Run(IDLE, before);
    SafeFromStart(before);
    RunConcat(IDLE, before, [Mount]);
    RunOne(s, Mount);
    var mounted := OnEvent(s, Mount);
    var token := mounted.activeToken;
    RunConcat(IDLE, before + [Mount], between);
    var waiting := Run(mounted, between);
    RunConcat(IDLE, before + [Mount] + between, [Resolve(token)]);
    RunOne(waiting, Resolve(token));
    WaitsForUrl(mounted, between);
    DisconnectClosesAll(s, Mount);
    MountIsNewest(s);
    UrlOpens(waiting);
  }

  lemma SafeFromStart(events: seq<Event>)
    ensures Safe(Run(IDLE, events))
  {
    hide OnEvent, Run;
    assert Safe(IDLE);
    RunsAreSafe(IDLE, events);
  }

  lemma MountIsNewest(s: State)
    requires Safe(s)
    ensures var after := OnEvent(s, Mount);
      && after.activeToken in after.pending
      && forall i :: 0 <= i < |after.sockets| ==> after.sockets[i].token < after.activeToken
  {
  }

  lemma UrlOpens(s: State)
    requires s.activeToken in s.pending
    ensures var after := OnEvent(s, Resolve(s.activeToken));
      after.sockets == s.sockets + [Socket(s.activeToken, false)] && after.activeWs == Some(|s.sockets|)
  {
  }

  /** Until the next mount or disconnect an open socket stays open and active. */
  lemma {:induction false} StaysOpen(s: State, i: nat, events: seq<Event>)
    requires Safe(s) && i < |s.sockets| && !s.sockets[i].closeCalled && LeftAlone(events)
    ensures var later := Run(s, events);
      i < |later.sockets| && later.sockets[i] == s.sockets[i] && later.activeWs == Some(i)
    decreases |events|
  {
    if events != [] {
      assert events[0] in events && forall e :: e in events[1..] ==> e in events;
      EventKeepsSafe(s, events[0]);
      StaysOpen(OnEvent(s, events[0]), i, events[1..]);
    }
  }

  /** The module's two variables, beside a record of the sockets and promises they stand for. */
  class LogSocket {
    var activeWs: Option<nat>
    var activeToken: nat
    var sockets: seq<Socket>
    ghost var pending: set<nat>
    ghost var mounts: seq<nat>

    ghost function Snapshot(): State
      reads this
    {
      State(activeToken, activeWs, sockets, pending, mounts)
    }

    constructor ()
      ensures Snapshot() == IDLE && Safe(Snapshot())
    {
      activeWs, activeToken, sockets, pending, mounts := None, 0, [], {}, [];
    }

    method DisconnectDockerLogs()
      requires Safe(Snapshot())
      modifies this
      ensures Snapshot() == OnEvent(old(Snapshot()), Disconnect) && Safe(Snapshot())
      ensures forall i :: 0 <= i < |sockets| ==> sockets[i].closeCalled
    {
      activeToken := activeToken + 1;
      if activeWs.Some? {
        sockets := sockets[activeWs.value := sockets[activeWs.value].(closeCalled := true)];
      }
      activeWs := None;
    }

    method MountDockerLogs() returns (token: nat)
      requires Safe(Snapshot())
      modifies this
      ensures Snapshot() == OnEvent(old(Snapshot()), Mount) && Safe(Snapshot())
      ensures token == activeToken && token > old(activeToken)
    {
      DisconnectDockerLogs();
      activeToken := activeToken + 1;
      token := activeToken;
      pending := pending + {token};
      mounts := mounts + [token];
    }

    /** The promise of the mount's URL resolves. */
    method OnUrl(token: nat)
      requires Safe(Snapshot()) && token in pending
      modifies this
      ensures Snapshot() == OnEvent(old(Snapshot()), Resolve(token)) && Safe(Snapshot())
    {
      ghost var s := Snapshot();
      pending := pending - {token};
      if token == activeToken {
        EventKeepsSafe(s, Resolve(token));
        var ws := OpenSocket(token);
        activeWs := Some(ws);
      }
    }

    /** A new socket; its number is its place among all sockets opened. */
    method OpenSocket(token: nat) returns (ws: nat)
      modifies this`sockets
      ensures ws == |old(sockets)| && sockets == old(sockets) + [Socket(token, false)]
    {
      ws := |sockets|;
      sockets := sockets + [Socket(token, false)];
    }
  }
}
