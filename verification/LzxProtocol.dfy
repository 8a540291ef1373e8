/**
 The benchmark and its codec helper, two processes joined by two pipes. Bytes move in pieces of
 any size, so a header or a chunk may be read while it is still being written.
 */
module LzxProtocol {
  import opened Common
  import LittleEndian

  const CHUNK_BYTES: nat := 32 * 1024

  function Le32(n: nat): Bytes {
    LittleEndian.Encode(n, 4)
  }

  function Frame(chunk: Bytes): Bytes {
    Le32(|chunk|) + chunk
  }

  /** `Exchange`: one request, with what is still to be written and what has been read of its reply. */
  datatype Client =
    | Between
    | Exchange(chunk: Bytes, out: Bytes, got: Bytes)
    | Stopping(out: Bytes)
    | Closed
    | Broken

  datatype Helper =
    | Header(acc: Bytes)
    | Body(length: nat, acc: Bytes)
    | Replying(out: Bytes)
    | Exited(success: bool)

  /** Why the helper left without a success. */
  datatype Fault = NoFault | BadLength | Truncated | RoundTripFailed

  /**
   `sent`, `seen`, `answers` and `accepted` are history: chunks sent, chunks the helper got, its
   replies, the replies read.
   */
  datatype State = State(
    client: Client,
    helper: Helper,
    toHelper: Bytes,
    fromHelper: Bytes,
    fault: Fault,
    sent: seq<Bytes>,
    seen: seq<Bytes>,
    answers: seq<nat>,
    accepted: seq<nat>)

  /** How many bytes each pipe holds before a write into it waits. */
  datatype Capacity = Capacity(request: nat, reply: nat)

  datatype Action =
    | Begin(chunk: Bytes)
    | Send(n: nat)
    | Receive(n: nat)
    | Stop
    | NoticeExit
    | HelperReads(n: nat)
    | Compress(stored: nat, good: bool)
    | HelperSends(n: nat)
    | HelperSeesEnd

  const Initial: State := State(Between, Header([]), [], [], NoFault, [], [], [], [])

  function Out(c: Client): Bytes {
    match c case Exchange(_, out, _) => out case Stopping(out) => out case _ => []
  }

  /** The client's half: one request and its whole reply at a time, and a zero length when it stops. */
  function ClientStep(s: State, a: Action, capacity: Capacity): State {
    match a
    case Begin(chunk) =>
      // A file is read into a buffer of one chunk, and an empty read is the end of the file.
      if s.client.Between? && 1 <= |chunk| <= CHUNK_BYTES
      then s.(client := Exchange(chunk, Frame(chunk), []), sent := s.sent + [chunk]) else s
    case Send(n) =>
      if n > |Out(s.client)| || |s.toHelper| + n > capacity.request then s
      else
        var rest := Out(s.client)[n..];
        var t := s.(toHelper := s.toHelper + Out(s.client)[..n]);
        (match s.client
         case Exchange(chunk, _, got) => t.(client := Exchange(chunk, rest, got))
         case Stopping(_) => t.(client := if rest == [] then Closed else Stopping(rest))
         case _ => s)
    case Receive(n) =>
      if !s.client.Exchange? || s.client.out != [] || n > |s.fromHelper| || |s.client.got| + n > 4 then s
      else
        var got := s.client.got + s.fromHelper[..n];
        var t := s.(fromHelper := s.fromHelper[n..]);
        if |got| < 4 then t.(client := Exchange(s.client.chunk, [], got))
        else t.(client := Between, accepted := s.accepted + [LittleEndian.Decode(got)])
    // Done, cancelled, a changed file or a bad size: always between two exchanges.
    case Stop => if s.client.Between? then s.(client := Stopping(Le32(0))) else s
    case NoticeExit => if s.helper.Exited? && s.fromHelper == [] && s.client.Exchange? then s.(client := Broken) else s
    case _ => s
  }

  /** The helper's loop: a length, that many bytes, one reply. */
  function HelperStep(s: State, a: Action, capacity: Capacity): State {
    match a
    case HelperReads(n) =>
      if n > |s.toHelper| then s
      else
        var t, piece := s.(toHelper := s.toHelper[n..]), s.toHelper[..n];
        (match s.helper
         case Header(acc) =>
           if |acc| + n > 4 then s
           else if |acc| + n < 4 then t.(helper := Header(acc + piece))
           else
             var length := LittleEndian.Decode(acc + piece);
             if length == 0 then t.(helper := Exited(true))
             else if length > CHUNK_BYTES then t.(helper := Exited(false), fault := BadLength)
             else t.(helper := Body(length, []))
         case Body(length, acc) =>
           if |acc| + n > length then s else t.(helper := Body(length, acc + piece))
         case _ => s)
    case Compress(stored, good) =>
      if !s.helper.Body? || |s.helper.acc| != s.helper.length || stored >= s.helper.length then s
      else
        var t := s.(seen := s.seen + [s.helper.acc]);
        // 0 says that the chunk does not compress below its own length.
        if stored != 0 && !good then t.(helper := Exited(false), fault := RoundTripFailed)
        else
          var reply := if stored != 0 then stored else s.helper.length;
          t.(helper := Replying(Le32(reply)), answers := s.answers + [reply])
    case HelperSends(n) =>
      if !s.helper.Replying? || n > |s.helper.out| || |s.fromHelper| + n > capacity.reply then s
      else
        var rest := s.helper.out[n..];
        s.(fromHelper := s.fromHelper + s.helper.out[..n], helper := if rest == [] then Header([]) else Replying(rest))
    case HelperSeesEnd =>
      if (s.client.Closed? || s.client.Broken?) && s.toHelper == [] && (s.helper.Header? || s.helper.Body?)
      then s.(helper := Exited(false), fault := Truncated) else s
    case _ => s
  }

  function Step(capacity: Capacity, s: State, a: Action): State {
    if a.Begin? || a.Send? || a.Receive? || a.Stop? || a.NoticeExit? then ClientStep(s, a, capacity)
    else HelperStep(s, a, capacity)
  }

  function Run(capacity: Capacity, s: State, actions: seq<Action>): State
    decreases |actions|
  {
    if actions == [] then s else Run(capacity, Step(capacity, s, actions[0]), actions[1..])
  }

  // ---------------------------------------------------------------- both ends agree where frames begin

  /** What the helper has taken of the frame in progress. */
  function Taken(h: Helper): Bytes {
    match h case Header(acc) => acc case Body(length, acc) => Le32(length) + acc case _ => []
  }

  predicate RepliesFit(s: State) {
    && |s.answers| <= |s.seen| && s.accepted <= s.answers && s.seen <= s.sent && |s.sent| <= |s.accepted| + 1
    && forall k | 0 <= k < |s.answers| :: 1 <= s.answers[k] <= |s.seen[k]| <= CHUNK_BYTES
  }

  /** The request is on its way: everything sent of it is taken or in the pipe, and no reply exists. */
  predicate OnItsWay(s: State, chunk: Bytes, out: Bytes, got: Bytes) {
    && 1 <= |chunk| <= CHUNK_BYTES
    && (s.helper.Header? || s.helper.Body?)
    && Taken(s.helper) + s.toHelper + out == Frame(chunk)
    && (s.helper.Header? ==> |s.helper.acc| < 4)
    && (s.helper.Body? ==> s.helper.length == |chunk| && |s.helper.acc| <= |chunk|)
    && got == [] && s.fromHelper == []
    && s.sent == s.seen + [chunk] && s.answers == s.accepted && |s.answers| == |s.seen|
  }

  /** The reply is on its way: the request is wholly taken. */
  predicate Answering(s: State, chunk: Bytes, out: Bytes, got: Bytes) {
    && out == [] && s.toHelper == [] && |got| < 4
    && s.sent == s.seen && |s.answers| == |s.seen| && |s.seen| > 0 && s.seen[|s.seen| - 1] == chunk
    && s.answers == s.accepted + [s.answers[|s.answers| - 1]]
    && got + s.fromHelper + (if s.helper.Replying? then s.helper.out else []) == Le32(s.answers[|s.answers| - 1])
    && (s.helper == Header([]) || (s.helper.Replying? && s.helper.out != []))
  }

  predicate Dead(s: State) {
    s.helper == Exited(false) && s.fault == RoundTripFailed && s.fromHelper == []
  }

  predicate Quiet(s: State) {
    s.fromHelper == [] && s.sent == s.seen && s.answers == s.accepted && |s.answers| == |s.seen|
  }

  predicate Sync(s: State) {
    && RepliesFit(s)
    && (s.fault != NoFault ==> Dead(s))
    && (s.helper == Exited(false) ==> s.fault != NoFault)
    && match s.client
       case Between => s.helper == Header([]) && s.toHelper == [] && Quiet(s)
       case Exchange(chunk, out, got) =>
         || OnItsWay(s, chunk, out, got)
         || Answering(s, chunk, out, got)
         || (Dead(s) && out == [] && s.toHelper == [] && got == [])
       case Stopping(out) =>
         s.helper.Header? && |s.helper.acc| < 4 && s.helper.acc + s.toHelper + out == Le32(0) && out != [] && Quiet(s)
       case Closed =>
         Quiet(s) && ((s.helper.Header? && |s.helper.acc| < 4 && s.helper.acc + s.toHelper == Le32(0))
                      || (s.helper == Exited(true) && s.toHelper == []))
       case Broken => Dead(s)
  }

  lemma FrameStart(chunk: Bytes)
    requires |chunk| <= CHUNK_BYTES
    ensures |Le32(|chunk|)| == 4 && LittleEndian.Decode(Le32(|chunk|)) == |chunk|
    ensures Frame(chunk)[..4] == Le32(|chunk|) && Frame(chunk)[4..] == chunk && |Frame(chunk)| == 4 + |chunk|
  {
    LittleEndian.Widths();
    LittleEndian.RoundTrip(|chunk|, 4);
  }

  lemma ReplyRoundTrip(n: nat)
    requires n <= CHUNK_BYTES
    ensures LittleEndian.Decode(Le32(n)) == n
  {
    LittleEndian.Widths();
    LittleEndian.RoundTrip(n, 4);
  }

  /** Bytes that move from the front of one piece to the end of the piece before it change nothing overall. */
  lemma Moved(a: Bytes, pipe: Bytes, n: nat, z: Bytes)
    requires n <= |pipe|
    ensures (a + pipe[..n]) + pipe[n..] + z == a + pipe + z
    ensures n == 0 ==> a + pipe[..n] == a && pipe[n..] == pipe
  {
  }

  /** The pieces before `z` are all there is once they are as long as the whole. */
  lemma WholeTaken(a: Bytes, pipe: Bytes, z: Bytes, whole: Bytes)
    requires a + pipe + z == whole && |a| >= |whole|
    ensures a == whole && pipe == [] && z == []
  {
    assert pipe == [] && z == [];
    assert a + [] + [] == a;
  }

  lemma BeginKeeps(capacity: Capacity, s: State, chunk: Bytes)
    requires Sync(s)
    ensures Sync(ClientStep(s, Begin(chunk), capacity))
  {
    if s.client.Between? && 1 <= |chunk| <= CHUNK_BYTES {
      var t := ClientStep(s, Begin(chunk), capacity);
      assert [] + [] + Frame(chunk) == Frame(chunk);
      assert OnItsWay(t, chunk, Frame(chunk), []);
    }
  }

  lemma SendKeeps(capacity: Capacity, s: State, n: nat)
    requires Sync(s)
    ensures Sync(ClientStep(s, Send(n), capacity))
  {
    var out := Out(s.client);
    if n <= |out| && |s.toHelper| + n <= capacity.request {
      var t := ClientStep(s, Send(n), capacity);
      match s.client
      case Exchange(chunk, _, got) =>
        if OnItsWay(s, chunk, out, got) {
          Sending(Taken(s.helper), s.toHelper, out, n);
          assert OnItsWay(t, chunk, out[n..], got);
        } else {
          assert n == 0 && s.toHelper + out[..0] == s.toHelper && out[0..] == out;
        }
      case Stopping(_) =>
        Sending(s.helper.acc, s.toHelper, out, n);
      case _ =>
    }
  }

  lemma Sending(taken: Bytes, pipe: Bytes, out: Bytes, n: nat)
    requires n <= |out|
    ensures taken + (pipe + out[..n]) + out[n..] == taken + pipe + out
    ensures out[n..] == [] ==> taken + (pipe + out[..n]) == taken + pipe + out
  {
  }

  lemma ReceiveKeeps(capacity: Capacity, s: State, n: nat)
    requires Sync(s)
    ensures Sync(ClientStep(s, Receive(n), capacity))
  {
    if s.client.Exchange? && s.client.out == [] && n <= |s.fromHelper| && |s.client.got| + n <= 4 {
      var chunk, got := s.client.chunk, s.client.got;
      var t := ClientStep(s, Receive(n), capacity);
      if Answering(s, chunk, [], got) {
        var reply := s.answers[|s.answers| - 1];
        var out := if s.helper.Replying? then s.helper.out else [];
        Moved(got, s.fromHelper, n, out);
        if |got| + n == 4 {
          WholeTaken(got + s.fromHelper[..n], s.fromHelper[n..], out, Le32(reply));
          ReplyRoundTrip(reply);
        } else {
          assert Answering(t, chunk, [], got + s.fromHelper[..n]);
        }
      } else {
        Moved(got, s.fromHelper, n, []);
      }
    }
  }

  lemma ClientKeepsSync(capacity: Capacity, s: State, a: Action)
    requires Sync(s)
    ensures Sync(ClientStep(s, a, capacity))
  {
    match a
    case Begin(chunk) => BeginKeeps(capacity, s, chunk);
    case Send(n) => SendKeeps(capacity, s, n);
    case Receive(n) => ReceiveKeeps(capacity, s, n);
    case _ =>
  }

  /** Reading part of a request leaves it on its way, and a whole header is this request's length. */
  lemma HeaderTakes(capacity: Capacity, s: State, chunk: Bytes, out: Bytes, n: nat)
    requires OnItsWay(s, chunk, out, []) && s.helper.Header? && n <= |s.toHelper| && |s.helper.acc| + n <= 4
    ensures OnItsWay(HelperStep(s, HelperReads(n), capacity), chunk, out, [])
    ensures HelperStep(s, HelperReads(n), capacity).fault == s.fault
  {
    var acc, rest := s.helper.acc, s.toHelper[n..];
    var taken := acc + s.toHelper[..n];
    Moved(acc, s.toHelper, n, out);
    if |taken| == 4 {
      FrameStart(chunk);
      Prefix(taken, rest, out, Frame(chunk));
      assert Le32(|chunk|) + [] == Le32(|chunk|);
    }
  }

  lemma Prefix(taken: Bytes, rest: Bytes, out: Bytes, whole: Bytes)
    requires taken + rest + out == whole
    ensures |taken| <= |whole| && whole[..|taken|] == taken
  {
  }

  lemma BodyTakes(capacity: Capacity, s: State, chunk: Bytes, out: Bytes, n: nat)
    requires OnItsWay(s, chunk, out, []) && s.helper.Body? && n <= |s.toHelper| && |s.helper.acc| + n <= |chunk|
    ensures OnItsWay(HelperStep(s, HelperReads(n), capacity), chunk, out, [])
    ensures HelperStep(s, HelperReads(n), capacity).fault == s.fault
  {
    Moved(Taken(s.helper), s.toHelper, n, out);
    assert Le32(|chunk|) + (s.helper.acc + s.toHelper[..n]) == Taken(s.helper) + s.toHelper[..n];
  }

  lemma StopTakes(capacity: Capacity, s: State, n: nat)
    requires Sync(s) && (s.client.Stopping? || s.client.Closed?) && n <= |s.toHelper|
    ensures Sync(HelperStep(s, HelperReads(n), capacity))
  {
    if s.helper.Header? && |s.helper.acc| + n <= 4 {
      var out := Out(s.client);
      Moved(s.helper.acc, s.toHelper, n, out);
      var taken, rest := s.helper.acc + s.toHelper[..n], s.toHelper[n..];
      assert rest + [] == rest && taken + rest + [] == taken + rest
          && s.helper.acc + s.toHelper + [] == s.helper.acc + s.toHelper;
      if |taken| == 4 {
        WholeTaken(taken, rest, out, Le32(0));
        ReplyRoundTrip(0);
      }
    } else {
      Moved([], s.toHelper, n, []);
    }
  }

  lemma HelperReadsKeeps(capacity: Capacity, s: State, n: nat)
    requires Sync(s)
    ensures Sync(HelperStep(s, HelperReads(n), capacity))
  {
    if n <= |s.toHelper| {
      if s.client.Stopping? || s.client.Closed? {
        StopTakes(capacity, s, n);
      } else if s.client.Exchange? && OnItsWay(s, s.client.chunk, s.client.out, s.client.got) {
        if s.helper.Header? && |s.helper.acc| + n <= 4 {
          HeaderTakes(capacity, s, s.client.chunk, s.client.out, n);
        } else if s.helper.Body? && |s.helper.acc| + n <= |s.client.chunk| {
          BodyTakes(capacity, s, s.client.chunk, s.client.out, n);
        }
      } else {
        Moved([], s.toHelper, n, []);
      }
    }
  }

  lemma CompressKeeps(capacity: Capacity, s: State, stored: nat, good: bool)
    requires Sync(s)
    ensures Sync(HelperStep(s, Compress(stored, good), capacity))
  {
    if s.helper.Body? && |s.helper.acc| == s.helper.length && stored < s.helper.length {
      BodyIsChunk(s);
      if stored == 0 || good {
        ReplyStarts(capacity, s, stored, good);
      }
    }
  }

  /** The helper has a reply, none of it written yet. */
  lemma ReplyStarts(capacity: Capacity, s: State, stored: nat, good: bool)
    requires Sync(s) && s.client.Exchange? && s.helper.Body? && s.helper.acc == s.client.chunk
    requires |s.helper.acc| == s.helper.length && stored < s.helper.length && (stored == 0 || good)
    requires s.toHelper == [] && s.client.out == []
    ensures var t := HelperStep(s, Compress(stored, good), capacity);
            RepliesFit(t) && Answering(t, s.client.chunk, [], s.client.got)
  {
    var t := HelperStep(s, Compress(stored, good), capacity);
    assert OnItsWay(s, s.client.chunk, [], s.client.got);
    assert [] + [] + t.helper.out == t.helper.out;
  }

  /** A whole body is the chunk that was sent, and nothing of the request is left on the way. */
  lemma BodyIsChunk(s: State)
    requires Sync(s) && s.helper.Body? && |s.helper.acc| == s.helper.length
    ensures s.client.Exchange? && s.helper.acc == s.client.chunk && s.toHelper == [] && s.client.out == []
  {
    var chunk := s.client.chunk;
    FrameStart(chunk);
    WholeTaken(Taken(s.helper), s.toHelper, s.client.out, Frame(chunk));
    assert Taken(s.helper)[4..] == s.helper.acc == chunk;
  }

  lemma HelperSendsKeeps(capacity: Capacity, s: State, n: nat)
    requires Sync(s)
    ensures Sync(HelperStep(s, HelperSends(n), capacity))
  {
    if s.helper.Replying? && n <= |s.helper.out| {
      Sending(s.client.got, s.fromHelper, s.helper.out, n);
      var t := HelperStep(s, HelperSends(n), capacity);
      assert Answering(t, s.client.chunk, s.client.out, s.client.got) by {
        assert s.client.got + t.fromHelper + [] == s.client.got + t.fromHelper;
      }
    }
  }

  lemma SeesEndKeeps(capacity: Capacity, s: State)
    requires Sync(s)
    ensures Sync(HelperStep(s, HelperSeesEnd, capacity)) && HelperStep(s, HelperSeesEnd, capacity) == s
  {
  }

  lemma StepKeepsSync(capacity: Capacity, s: State, a: Action)
    requires Sync(s)
    ensures Sync(Step(capacity, s, a))
  {
    match a
    case HelperReads(n) => HelperReadsKeeps(capacity, s, n);
    case Compress(stored, good) => CompressKeeps(capacity, s, stored, good);
    case HelperSends(n) => HelperSendsKeeps(capacity, s, n);
    case HelperSeesEnd => SeesEndKeeps(capacity, s);
    case _ => ClientKeepsSync(capacity, s, a);
  }

  lemma {:induction false} RunKeepsSync(capacity: Capacity, s: State, actions: seq<Action>)
    requires Sync(s)
    ensures Sync(Run(capacity, s, actions))
    decreases |actions|
  {
    if actions != [] {
      StepKeepsSync(capacity, s, actions[0]);
      RunKeepsSync(capacity, Step(capacity, s, actions[0]), actions[1..]);
    }
  }

  /**
   In every state of every run: the helper has got exactly the chunks sent, in order; each has at most
   one reply, between 1 and its own length; no length is ever misread or cut short; and the helper
   succeeds only after the client has stopped with every reply read.
   */
  lemma FramesStayInStep(capacity: Capacity, actions: seq<Action>)
    ensures var s := Run(capacity, Initial, actions);
            && s.fault != BadLength && s.fault != Truncated
            && s.seen <= s.sent && s.accepted <= s.answers && |s.answers| <= |s.seen| && |s.sent| <= |s.accepted| + 1
            && (forall k | 0 <= k < |s.accepted| :: 1 <= s.accepted[k] <= |s.sent[k]| <= CHUNK_BYTES)
            && (s.helper == Exited(true) ==> s.client.Closed? && s.seen == s.sent && |s.accepted| == |s.sent|)
            && (s.client.Closed? && s.toHelper == [] ==> s.helper == Exited(true))
  {
    RunKeepsSync(capacity, Initial, actions);
  }

  predicate Over(s: State) {
    s.client.Broken? || (s.client.Closed? && s.helper.Exited?)
  }

  /** Pipes of any capacity never deadlock the two: until both are done, one of them can move. */
  lemma NoDeadlock(capacity: Capacity, actions: seq<Action>) returns (a: Action)
    requires capacity.request >= 1 && capacity.reply >= 1 && !Over(Run(capacity, Initial, actions))
    ensures var s := Run(capacity, Initial, actions); Step(capacity, s, a) != s
  {
    RunKeepsSync(capacity, Initial, actions);
    a := SomeMove(capacity, Run(capacity, Initial, actions));
  }

  lemma SomeMove(capacity: Capacity, s: State) returns (a: Action)
    requires capacity.request >= 1 && capacity.reply >= 1 && Sync(s) && !Over(s)
    ensures Step(capacity, s, a) != s
  {
    if s.toHelper != [] && (s.helper.Header? || (s.helper.Body? && |s.helper.acc| < s.helper.length)) {
      a := HelperReads(1);
      assert s.helper.Header? ==> |s.helper.acc| < 4;
      ReadingMoves(capacity, s);
    } else if s.toHelper == [] && Out(s.client) != [] {
      a := Send(1);
      assert |Step(capacity, s, a).toHelper| > |s.toHelper|;
    } else if s.client.Between? {
      a := Stop;
    } else if s.helper.Exited? {
      a := NoticeExit;
    } else if s.helper.Replying? {
      a := if |s.fromHelper| < capacity.reply then HelperSends(1) else Receive(1);
      assert |Step(capacity, s, a).fromHelper| != |s.fromHelper|;
    } else if s.helper.Body? {
      a := Compress(0, true);
    } else {
      a := Receive(1);
      ReplyIsThere(s);
      assert |Step(capacity, s, a).fromHelper| < |s.fromHelper|;
    }
  }

  lemma ReadingMoves(capacity: Capacity, s: State)
    requires s.toHelper != []
    requires (s.helper.Header? && |s.helper.acc| < 4) || (s.helper.Body? && |s.helper.acc| < s.helper.length)
    ensures |Step(capacity, s, HelperReads(1)).toHelper| < |s.toHelper|
  {
  }

  lemma ReplyIsThere(s: State)
    requires Sync(s) && s.helper.Header? && s.toHelper == [] && Out(s.client) == [] && !s.client.Between?
    ensures s.client.Exchange? && s.client.out == [] && |s.client.got| < 4 && s.fromHelper != []
  {
    assert |s.helper.acc + s.toHelper + Out(s.client)| == |s.helper.acc|;
    assert s.client.Exchange?;
    assert s.client.got + s.fromHelper + [] == s.client.got + s.fromHelper;
  }
}
