/** Liveness and safety of whole runs of the keep-alive loop, from what the client sends and what
    the surroundings have in store alone. */
module H1RunLaws {
  import opened Text
  import opened Proto
  import opened H1Relay
  import opened H1Serve
  import opened H1ServeLaws
  import H1ChunkLaws
  import H1Response

  /** The upstream sends a whole response that leaves the connection usable, or a status line
      without header line; either way before the buffer is full, and with a head the general
      parser waits for. */
  ghost predicate AnswerOk(h: Handler, w: World) {
    && H1Response.Settled(w.answer, h.responses, w.room)
    && (AnswerHead(w).Ok? ==>
          var resp := AnswerHead(w).value;
          H1Response.BodyRelays(w.answer, resp) && H1Response.Reusable(resp, true))
  }

  /** A keep-alive request for which the surroundings work: it is answered at once and has no
      body, or it goes to an upstream that can be reached and does its part. */
  ghost predicate Friendly(h: Handler, f: Frame, w: World) {
    && KeepAlive(f.req)
    && match PlanOf(h, f.req, w)
       case Reply(_) => f.body == ""
       case Forward(_) => w.connects && w.accepts && w.finishes && AnswerOk(h, w)
       case _ => false
  }

  /** What makes the process panic: too many names to skip, or an answer without header line. */
  predicate Crashing(h: Handler, f: Frame, w: World) {
    PlanOf(h, f.req, w).Forward? && (TooMany(h, f.req, f.head) || AnswerHead(w) == Panicked)
  }

  ghost predicate AllFriendly(h: Handler, frames: seq<Frame>, worlds: Worlds, n: nat) {
    forall i | 0 <= i < |frames| :: Friendly(h, frames[i], worlds(n + i))
  }

  predicate NoneCrashing(h: Handler, frames: seq<Frame>, worlds: Worlds, n: nat, k: nat)
    requires k <= |frames|
  {
    forall i | 0 <= i < k :: !Crashing(h, frames[i], worlds(n + i))
  }

  // ---------------------------------------------------------------- one request

  /** How the answer of a working upstream ends. */
  lemma AnswerEnd(h: Handler, w: World, req: Request, end: H1Response.ResponseEnd)
    requires AnswerOk(h, w) && w.finishes && KeepAlive(req) && AnswerEnds(h, w, req, true, end)
    ensures end == if AnswerHead(w) == Panicked then H1Response.Crashed else H1Response.Relayed(true)
  {
    hide ResponseFast, H1Response.Settled, H1Response.EndFits, H1Response.BodyRelays, H1Response.Reusable;
    var resp, seen :| H1Response.EndFits(w.answer, h.responses, w.room, true, true, end, resp, seen);
    H1Response.SettledEnd(w.answer, h.responses, w.room, true, end, resp, seen);
    SettledHead(h, w);
  }

  lemma SettledHead(h: Handler, w: World)
    requires H1Response.Settled(w.answer, h.responses, w.room)
    ensures AnswerHead(w).Ok? || AnswerHead(w) == Panicked
  {
    H1Response.DecidedAtHead(w.answer);
    hide ResponseFast, FindHeadersEnd;
  }

  /** A turn for such a request is the expected one, and the loop goes on. */
  lemma TurnGoesOn(h: Handler, w: World, f: Frame, t: Turn)
    requires Friendly(h, f, w) && t.req == f.req && t.head == f.head && Explained(h, w, t, true)
    ensures t.GoesOn() && !Crashing(h, f, w) && (t.HeadOnly() ==> f.body == "")
  {
    hide PlanOf, TooMany, AnswerOk, AnswerEnds, AnswerHead;
    match t.fate
    case NoAnswer(why) => AnswerEnd(h, w, t.req, H1Response.Failed(why));
    case Answered(keepAlive) => AnswerEnd(h, w, t.req, H1Response.Relayed(keepAlive));
    case _ =>
  }

  /** And if there is no turn, the process panics. */
  lemma EndsByCrash(h: Handler, w: World, f: Frame, tail: Bytes, req: Request, exit: Exit)
    requires FrameOk(h.requests, f) && Friendly(h, f, w)
    requires Ends(h, w, FrameBytes(f) + tail, req, exit, true, true)
    ensures exit == Crashed && Crashing(h, f, w)
  {
    hide PlanOf, TooMany, AnswerOk, AnswerEnds, AnswerHead, FrameOk, Stands, Framed, ChunkedRelay;
    StandingFrame(h.requests, f, tail, req);
    match exit
    case BodyLost => FramedRelays(f, tail);
    case Crashed =>
      if AnswerEnds(h, w, req, true, H1Response.Crashed) && w.finishes { AnswerEnd(h, w, req, H1Response.Crashed); }
    case _ =>
  }

  /** The request at the front of a stream of frames is the first frame. */
  lemma StandingFrame(oracle: Oracle, f: Frame, tail: Bytes, req: Request)
    requires FrameOk(oracle, f) && Stands(oracle, FrameBytes(f) + tail, req)
    ensures req == f.req && req.headersEnd == |f.head| && Framed(f.req, f.body)
    ensures (FrameBytes(f) + tail)[..|f.head|] == f.head && (FrameBytes(f) + tail)[|f.head|..] == f.body + tail
  {
    hide RequestFast, ParseRequest, Quiet, Framed;
    var s := FrameBytes(f) + tail;
    Assoc(f.head, f.body, tail);
    var p: Bytes :| p <= s && ParseRequest(p, oracle) == Ok(req) && 0 < req.headersEnd <= |p|;
    ParseAtFrame(oracle, f, f.body + tail, p);
  }

  lemma FramedRelays(f: Frame, tail: Bytes)
    requires Framed(f.req, f.body) && f.req.chunked
    ensures ChunkedRelay(f.body + tail, false).ok
  {
    hide ChunkedRelay;
    var b :| Writes(b, f.body);
    H1ChunkLaws.BodyRelayedIff(b, tail, false);
  }

  // ---------------------------------------------------------------- whole runs

  /** As far as the log goes, the turns are the requests, and every one was followed by another
      iteration. */
  lemma {:induction false} TurnsAreFrames(h: Handler, worlds: Worlds, n: nat, frames: seq<Frame>, log: seq<Turn>,
                                          rest: Bytes)
    requires AllOk(h.requests, frames) && AllFriendly(h, frames, worlds, n)
    requires Run(h.requests, Stream(frames), log, rest)
    requires forall i | 0 <= i < |log| :: Explained(h, worlds(n + i), log[i], true)
    ensures |log| <= |frames| && Matches(frames, log) && AllGoOn(log) && rest == Stream(frames[|log|..])
    ensures NoneCrashing(h, frames, worlds, n, |log|)
    decreases |log|
  {
    hide AllOk, AllFriendly, NoneCrashing, Matches, AllGoOn;
    hide FrameOk, TurnAt, FrameBytes, Friendly, Explained, Crashing, Turn.GoesOn;
    if log == [] {
      NoTurns(h, worlds, n, frames);
      assert frames[0..] == frames;
    } else if frames == [] {
      NoTurnInNothing(h.requests, log, rest);
    } else {
      var f, more := frames[0], frames[1..];
      FirstFrame(h, worlds, n, frames);
      TurnIsFrame(h.requests, f, Stream(more), log[0]);
      TurnGoesOn(h, worlds(n), f, log[0]);
      Shifted(h, worlds, n, frames, log);
      TurnsAreFrames(h, worlds, n + 1, more, log[1..], rest);
      MatchesCons(frames, log);
      assert frames[|log|..] == more[|log| - 1..];
      Unshifted(h, worlds, n, frames, log);
    }
  }

  lemma NoTurns(h: Handler, worlds: Worlds, n: nat, frames: seq<Frame>)
    ensures Matches(frames, []) && AllGoOn([]) && NoneCrashing(h, frames, worlds, n, 0)
  {
  }

  lemma FirstFrame(h: Handler, worlds: Worlds, n: nat, frames: seq<Frame>)
    requires frames != [] && AllOk(h.requests, frames) && AllFriendly(h, frames, worlds, n)
    ensures FrameOk(h.requests, frames[0]) && AllOk(h.requests, frames[1..]) && Friendly(h, frames[0], worlds(n))
  {
    hide FrameOk, Friendly;
    assert frames[0] in frames && (forall x | x in frames[1..] :: x in frames);
    assert worlds(n + 0) == worlds(n);
  }

  lemma Shifted(h: Handler, worlds: Worlds, n: nat, frames: seq<Frame>, log: seq<Turn>)
    requires frames != [] && log != [] && AllFriendly(h, frames, worlds, n)
    requires forall i | 0 <= i < |log| :: Explained(h, worlds(n + i), log[i], true)
    ensures AllFriendly(h, frames[1..], worlds, n + 1)
    ensures forall i | 0 <= i < |log[1..]| :: Explained(h, worlds(n + 1 + i), log[1..][i], true)
  {
    hide Friendly, Explained;
    forall i | 0 <= i < |frames[1..]| ensures Friendly(h, frames[1..][i], worlds(n + 1 + i)) {
      assert frames[1..][i] == frames[i + 1] && n + 1 + i == n + (i + 1);
    }
    forall i | 0 <= i < |log[1..]| ensures Explained(h, worlds(n + 1 + i), log[1..][i], true) {
      assert log[1..][i] == log[i + 1] && n + 1 + i == n + (i + 1);
    }
  }

  lemma Unshifted(h: Handler, worlds: Worlds, n: nat, frames: seq<Frame>, log: seq<Turn>)
    requires frames != [] && 0 < |log| <= |frames|
    requires !Crashing(h, frames[0], worlds(n)) && NoneCrashing(h, frames[1..], worlds, n + 1, |log| - 1)
    requires log[0].GoesOn() && AllGoOn(log[1..])
    ensures NoneCrashing(h, frames, worlds, n, |log|) && AllGoOn(log)
  {
    hide Crashing, Turn.GoesOn;
    forall i | 0 <= i < |log| ensures !Crashing(h, frames[i], worlds(n + i)) && log[i].GoesOn() {
      if i > 0 {
        assert frames[1..][i - 1] == frames[i] && log[1..][i - 1] == log[i] && n + 1 + (i - 1) == n + i;
      }
    }
  }

  /** In front of a frame the loop can only panic. */
  lemma ExitAtFrame(h: Handler, w: World, f: Frame, tail: Bytes, last: Bytes, exit: Exit)
    requires FrameOk(h.requests, f) && Friendly(h, f, w)
    requires exit in {Tunnel, BodyLost, Crashed} ==>
      exists req :: Ends(h, w, FrameBytes(f) + tail, req, exit, true, true)
    requires exit in {EndOfStream, HeadTooLarge, BadRequest} ==>
      last <= FrameBytes(f) + tail && Hopeless(h.requests, last, (FrameBytes(f) + tail)[|last|..], exit)
    requires exit != Finished && exit != Broken
    ensures exit == Crashed && Crashing(h, f, w)
  {
    hide FrameOk, Friendly, Ends, Hopeless, FrameBytes, Crashing;
    if exit in {Tunnel, BodyLost, Crashed} {
      var req :| Ends(h, w, FrameBytes(f) + tail, req, exit, true, true);
      EndsByCrash(h, w, f, tail, req, exit);
    } else {
      NotHopeless(h.requests, f, tail, last, exit);
    }
  }

  /** Why a run ends whose turns all went on. */
  lemma ExitOf(h: Handler, worlds: Worlds, frames: seq<Frame>, exit: Exit, log: seq<Turn>, rest: Bytes, last: Bytes)
    requires AllOk(h.requests, frames) && AllFriendly(h, frames, worlds, 0) && h.requests("") == Incomplete
    requires RunOk(h, worlds, Stream(frames), true, true, exit, log, rest, last)
    requires |log| <= |frames| && AllGoOn(log) && rest == Stream(frames[|log|..])
    ensures if exit == Crashed then |log| < |frames| && Crashing(h, frames[|log|], worlds(|log|))
            else exit == EndOfStream && |log| == |frames|
  {
    hide Run, FrameOk, Log, Ends, Crashing, Friendly, Turn.GoesOn, Hopeless, FrameBytes;
    NotFinished(log);
    if |log| < |frames| {
      var left := frames[|log|..];
      var f, tail := left[0], Stream(left[1..]);
      assert f == frames[|log|] && f in frames && rest == FrameBytes(f) + tail;
      assert Friendly(h, frames[|log|], worlds(0 + |log|));
      ExitAtFrame(h, worlds(|log|), f, tail, last, exit);
    } else {
      NothingLeft(h, worlds(|log|), rest, last, exit);
    }
  }

  lemma NotFinished(log: seq<Turn>)
    requires AllGoOn(log)
    ensures !LastStops(log)
  {
    hide Turn.GoesOn;
  }

  /** Whatever `serve` does with a stream of keep-alive requests, a client that stays and
      surroundings that work: it takes the requests one for one, in order, each with its own
      body, and goes on after each, up to the first that makes it panic.  It panics if and only
      if there is one; if there is none, it ends with the stream, and every request has been
      answered exactly once. */
  lemma WholeRun(h: Handler, worlds: Worlds, frames: seq<Frame>, exit: Exit, log: seq<Turn>, rest: Bytes, last: Bytes)
    requires AllOk(h.requests, frames) && AllFriendly(h, frames, worlds, 0) && h.requests("") == Incomplete
    requires RunOk(h, worlds, Stream(frames), true, true, exit, log, rest, last)
    ensures |log| <= |frames| && Matches(frames, log) && AllGoOn(log) && rest == Stream(frames[|log|..])
    ensures NoneCrashing(h, frames, worlds, 0, |log|)
    ensures if exit == Crashed then |log| < |frames| && Crashing(h, frames[|log|], worlds(|log|))
            else exit == EndOfStream && |log| == |frames|
    ensures exit == Crashed <==> exists i :: 0 <= i < |frames| && Crashing(h, frames[i], worlds(i))
  {
    hide RunOk, Run, Explained, Crashing, AllOk, AllFriendly, Stream, Matches, AllGoOn;
    RunParts(h, worlds, frames, exit, log, rest, last);
    TurnsAreFrames(h, worlds, 0, frames, log, rest);
    ExitOf(h, worlds, frames, exit, log, rest, last);
    forall i | 0 <= i < |log| ensures !Crashing(h, frames[i], worlds(i)) {
      assert worlds(0 + i) == worlds(i);
    }
  }

  lemma RunParts(h: Handler, worlds: Worlds, frames: seq<Frame>, exit: Exit, log: seq<Turn>, rest: Bytes, last: Bytes)
    requires RunOk(h, worlds, Stream(frames), true, true, exit, log, rest, last)
    ensures Run(h.requests, Stream(frames), log, rest)
    ensures forall i | 0 <= i < |log| :: Explained(h, worlds(0 + i), log[i], true)
  {
    hide Run, Explained, Forwarded, Ends, Hopeless, AllGoOn;
    Unlogged(h, worlds, log);
  }

  lemma Unlogged(h: Handler, worlds: Worlds, log: seq<Turn>)
    requires Log(h, worlds, log, true)
    ensures forall i | 0 <= i < |log| :: Explained(h, worlds(0 + i), log[i], true)
  {
    hide Explained, Forwarded;
  }

  /** When the stream is used up the loop can only find its end. */
  lemma NothingLeft(h: Handler, w: World, rest: Bytes, last: Bytes, exit: Exit)
    requires rest == "" && h.requests("") == Incomplete
    ensures exit in {HeadTooLarge, BadRequest} && last <= rest ==> !Hopeless(h.requests, last, rest[|last|..], exit)
    ensures forall req :: !Ends(h, w, rest, req, exit, true, true)
  {
    assert ParseRequest("", h.requests) == Incomplete by { assert FindHeadersEnd("").None?; }
    hide ParseRequest, PlanOf, TooMany, AnswerEnds;
  }
}
