/** The server while it serves and while it shuts down: the main task, the player and any number of
    connection handlers as one state machine. */
module ServerShutdown {
  import opened Basics

  /** Where the main task is: in its select, before each of the explicit drops in turn, in the final
      wait, or done. */
  datatype Main = Serving | DropPlayer | DropMdns | DropNotify | DropComplete | Waiting | Returned

  /** What a handler task is waiting for. */
  datatype Phase =
    | Reading                  // a request, or the shutdown
    | Sending                  // room in the player's channel
    | Awaiting(answered: bool) // the player's reply
    | Writing                  // its response being written

  datatype Request =
    | FromHandler(id: nat)
    | Internal

  /** `handlers` are the live handler tasks. Sender handles are counted: `completeTx` those of the
      completion channel, `notifyTx` those of the shutdown broadcast. The player's channel is
      `queue`, and `working` the command the player is busy with. */
  datatype Server = Server(
    main: Main, handlers: map<nat, Phase>, accepted: nat,
    completeTx: int, notifyTx: int,
    queue: seq<Request>, working: Option<Request>)

  const CAPACITY: nat := 4

  function Start(): Server {
    // the handles of the listener, the player and the service announcer
    Server(Serving, map[], 0, 3, 1, [], None)
  }

  datatype Event =
    | Accept
    | SelectEnds
    | MainDrops
    | WaitEnds
    | GotRequest(id: nat, needsPlayer: bool)
    | ConnectionEnds(id: nat)        // closed by the peer, or failed
    | SawShutdown(id: nat)
    | CommandSent(id: nat)
    | SendFailed(id: nat)
    | GotReply(id: nat, more: bool)  // `more`: another command for the same request
    | ReplyLost(id: nat)
    | ResponseWritten(id: nat)
    | PlayerTakes
    | PlayerAnswers
    | PacketArrives                  // a session task puts a packet into the player's channel

  predicate PlayerAlive(s: Server) {
    s.main == Serving || s.main == DropPlayer
  }

  predicate Is(s: Server, id: nat, p: Phase) {
    id in s.handlers && s.handlers[id] == p
  }

  /** A request of this handler is in the player's hands. */
  predicate Pending(s: Server, id: nat) {
    FromHandler(id) in s.queue || s.working == Some(FromHandler(id))
  }

  predicate Enabled(s: Server, e: Event) {
    match e
    case Accept => s.main == Serving
    case SelectEnds => s.main == Serving
    case MainDrops => s.main.DropPlayer? || s.main.DropMdns? || s.main.DropNotify? || s.main.DropComplete?
    case WaitEnds => s.main == Waiting && s.completeTx == 0
    case GotRequest(id, _) => Is(s, id, Reading)
    case ConnectionEnds(id) => Is(s, id, Reading) || Is(s, id, Writing)
    case SawShutdown(id) => Is(s, id, Reading) && s.notifyTx == 0
    case CommandSent(id) => Is(s, id, Sending) && PlayerAlive(s) && |s.queue| < CAPACITY
    case SendFailed(id) => Is(s, id, Sending) && !PlayerAlive(s)
    case GotReply(id, _) => Is(s, id, Awaiting(true))
    case ReplyLost(id) => Is(s, id, Awaiting(false)) && !Pending(s, id)
    case ResponseWritten(id) => Is(s, id, Writing)
    // the player only runs inside the select
    case PlayerTakes => s.main == Serving && s.working == None && s.queue != []
    case PlayerAnswers => s.main == Serving && s.working.Some?
    case PacketArrives => PlayerAlive(s) && |s.queue| < CAPACITY
  }

  function Finish(s: Server, id: nat): Server {
    s.(handlers := s.handlers - {id}, completeTx := s.completeTx - 1)
  }

  function Goto(s: Server, id: nat, p: Phase): Server {
    s.(handlers := s.handlers[id := p])
  }

  function Step(s: Server, e: Event): Server
    requires Enabled(s, e)
  {
    match e
    case Accept =>
      s.(handlers := s.handlers[s.accepted := Reading], accepted := s.accepted + 1, completeTx := s.completeTx + 1)
    // the select drops the player's loop, and with it the command it is busy with
    case SelectEnds => s.(main := DropPlayer, working := None)
    case MainDrops =>
      (match s.main
       case DropPlayer => s.(main := DropMdns, completeTx := s.completeTx - 1, queue := [])
       case DropMdns => s.(main := DropNotify, completeTx := s.completeTx - 1)
       case DropNotify => s.(main := DropComplete, notifyTx := s.notifyTx - 1)
       case _ => s.(main := Waiting, completeTx := s.completeTx - 1))
    case WaitEnds => s.(main := Returned)
    case GotRequest(id, needsPlayer) => Goto(s, id, if needsPlayer then Sending else Writing)
    case ConnectionEnds(id) => Finish(s, id)
    case SawShutdown(id) => Finish(s, id)
    case CommandSent(id) => Goto(s, id, Awaiting(false)).(queue := s.queue + [FromHandler(id)])
    case SendFailed(id) => Finish(s, id)
    case GotReply(id, more) => Goto(s, id, if more then Sending else Writing)
    case ReplyLost(id) => Finish(s, id)
    case ResponseWritten(id) => Goto(s, id, Reading)
    case PlayerTakes => s.(queue := s.queue[1..], working := Some(s.queue[0]))
    case PlayerAnswers =>
      var t := s.(working := None);
      if s.working.value.FromHandler? && Is(s, s.working.value.id, Awaiting(false)) then
        Goto(t, s.working.value.id, Awaiting(true))
      else t
    case PacketArrives => s.(queue := s.queue + [Internal])
  }

  /** A run of events from one state to another. */
  ghost predicate Leads(s: Server, es: seq<Event>, t: Server)
    decreases |es|
  {
    if es == [] then s == t
    else Enabled(s, es[0]) && Leads(Step(s, es[0]), es[1..], t)
  }

  ghost predicate Reachable(s: Server, es: seq<Event>) {
    Leads(Start(), es, s)
  }

  // ---------------------------------------------------------------------------------
  // The invariant
  // ---------------------------------------------------------------------------------

  function One(b: bool): int {
    if b then 1 else 0
  }

  predicate Before(m: Main, n: Main) {
    Order(m) < Order(n)
  }

  function Order(m: Main): nat {
    match m
    case Serving => 0
    case DropPlayer => 1
    case DropMdns => 2
    case DropNotify => 3
    case DropComplete => 4
    case Waiting => 5
    case Returned => 6
  }

  /** Every live handler holds one completion handle, and so do the player, the announcer and the
      listener until the main task drops them; once the player is gone nothing is pending with it. */
  ghost predicate Inv(s: Server) {
    && s.completeTx == |s.handlers| + One(Before(s.main, DropMdns)) + One(Before(s.main, DropNotify)) +
                       One(Before(s.main, Waiting))
    && s.notifyTx == One(Before(s.main, DropComplete))
    && (forall id :: id in s.handlers ==> id < s.accepted)
    && (!PlayerAlive(s) ==> s.queue == [])
    && (s.main != Serving ==> s.working == None)
    && (s.main == Returned ==> s.handlers == map[])
  }

  lemma FinishKeepsInv(s: Server, id: nat)
    requires Inv(s) && id in s.handlers
    ensures Inv(Finish(s, id))
  {
    assert |s.handlers - {id}| == |s.handlers| - 1;
  }

  lemma GotoKeepsInv(s: Server, id: nat, p: Phase)
    requires Inv(s) && id in s.handlers
    ensures Inv(Goto(s, id, p))
  {
    assert s.handlers[id := p].Keys == s.handlers.Keys;
    assert |s.handlers[id := p]| == |s.handlers[id := p].Keys|;
    assert |s.handlers| == |s.handlers.Keys|;
  }

  lemma AcceptKeepsInv(s: Server)
    requires Inv(s) && s.main == Serving
    ensures Inv(Step(s, Accept))
  {
    assert s.accepted !in s.handlers;
    assert s.handlers[s.accepted := Reading].Keys == s.handlers.Keys + {s.accepted};
    assert |s.handlers[s.accepted := Reading].Keys| == |s.handlers.Keys| + 1;
    assert |s.handlers| == |s.handlers.Keys|;
  }

  lemma MainKeepsInv(s: Server, e: Event)
    requires Inv(s) && Enabled(s, e) && (e.SelectEnds? || e.MainDrops? || e.WaitEnds?)
    ensures Inv(Step(s, e))
  {
    if e.WaitEnds? {
      assert |s.handlers| == 0;
    }
  }

  lemma QueueKeepsInv(s: Server, queue: seq<Request>, working: Option<Request>)
    requires Inv(s)
    requires PlayerAlive(s) && (s.main != Serving ==> working == None)
    ensures Inv(s.(queue := queue, working := working))
  {
  }

  lemma StepKeepsInv(s: Server, e: Event)
    requires Inv(s) && Enabled(s, e)
    ensures Inv(Step(s, e))
  {
    match e
    case Accept => AcceptKeepsInv(s);
    case SelectEnds => MainKeepsInv(s, e);
    case MainDrops => MainKeepsInv(s, e);
    case WaitEnds => MainKeepsInv(s, e);
    case GotRequest(id, needsPlayer) => GotoKeepsInv(s, id, if needsPlayer then Sending else Writing);
    case ConnectionEnds(id) => FinishKeepsInv(s, id);
    case SawShutdown(id) => FinishKeepsInv(s, id);
    case CommandSent(id) =>
      GotoKeepsInv(s, id, Awaiting(false));
      QueueKeepsInv(Goto(s, id, Awaiting(false)), s.queue + [FromHandler(id)], s.working);
    case SendFailed(id) => FinishKeepsInv(s, id);
    case GotReply(id, more) => GotoKeepsInv(s, id, if more then Sending else Writing);
    case ReplyLost(id) => FinishKeepsInv(s, id);
    case ResponseWritten(id) => GotoKeepsInv(s, id, Reading);
    case PlayerTakes => QueueKeepsInv(s, s.queue[1..], Some(s.queue[0]));
    case PlayerAnswers =>
      var t := s.(working := None);
      QueueKeepsInv(s, s.queue, None);
      if s.working.value.FromHandler? && s.working.value.id in s.handlers {
        GotoKeepsInv(t, s.working.value.id, Awaiting(true));
      }
    case PacketArrives => QueueKeepsInv(s, s.queue + [Internal], s.working);
  }

  lemma {:induction false} RunsKeepInv(s: Server, es: seq<Event>, t: Server)
    requires Inv(s) && Leads(s, es, t)
    ensures Inv(t)
    decreases |es|
  {
    if es != [] {
      StepKeepsInv(s, es[0]);
      RunsKeepInv(Step(s, es[0]), es[1..], t);
    }
  }

  /** Safety: the final wait can end exactly when no handler is left, and when the server has
      returned none is. */
  lemma NoHandlerOutlivesTheServer(s: Server, es: seq<Event>)
    requires Reachable(s, es)
    ensures s.main == Waiting ==> (Enabled(s, WaitEnds) <==> s.handlers == map[])
    ensures s.main == Returned ==> s.handlers == map[]
    ensures s.completeTx == 0 ==> s.main == Waiting || s.main == Returned
  {
    RunsKeepInv(Start(), es, s);
  }

  // ---------------------------------------------------------------------------------
  // While it serves: every request is answered
  // ---------------------------------------------------------------------------------

  /** How many requests of this handler the player has. */
  function InHand(s: Server, id: nat): nat {
    multiset(s.queue)[FromHandler(id)] + (if s.working == Some(FromHandler(id)) then 1 else 0)
  }

  /** The player has exactly one request of each handler that waits for its reply, and none of any
      other; and it has no more than fit its channel. */
  ghost predicate Answerable(s: Server) {
    && (forall id: nat :: InHand(s, id) == if Is(s, id, Awaiting(false)) then 1 else 0)
    && |s.queue| <= 4
  }

  lemma SentIsInHand(s: Server, id: nat)
    requires Answerable(s) && Enabled(s, CommandSent(id))
    ensures Answerable(Step(s, CommandSent(id)))
  {
    var t := Step(s, CommandSent(id));
    forall j: nat
      ensures InHand(t, j) == if Is(t, j, Awaiting(false)) then 1 else 0
    {
      assert InHand(s, j) == if Is(s, j, Awaiting(false)) then 1 else 0;
    }
  }

  lemma TakenIsInHand(s: Server)
    requires Answerable(s) && Enabled(s, PlayerTakes)
    ensures Answerable(Step(s, PlayerTakes))
  {
    var t := Step(s, PlayerTakes);
    assert s.queue == [s.queue[0]] + t.queue;
    forall j: nat
      ensures InHand(t, j) == if Is(t, j, Awaiting(false)) then 1 else 0
    {
      assert InHand(s, j) == if Is(s, j, Awaiting(false)) then 1 else 0;
    }
  }

  lemma AnsweredIsDone(s: Server)
    requires Answerable(s) && Enabled(s, PlayerAnswers)
    ensures Answerable(Step(s, PlayerAnswers))
    ensures s.working.value.FromHandler? ==> Is(Step(s, PlayerAnswers), s.working.value.id, Awaiting(true))
  {
    var t := Step(s, PlayerAnswers);
    if s.working.value.FromHandler? {
      assert InHand(s, s.working.value.id) >= 1;
    }
    forall j: nat
      ensures InHand(t, j) == if Is(t, j, Awaiting(false)) then 1 else 0
    {
      assert InHand(s, j) == if Is(s, j, Awaiting(false)) then 1 else 0;
    }
  }

  lemma AwaitingIsPending(s: Server, id: nat)
    requires Answerable(s)
    ensures Is(s, id, Awaiting(false)) <==> Pending(s, id)
    ensures !Enabled(s, ReplyLost(id))
  {
    assert InHand(s, id) == if Is(s, id, Awaiting(false)) then 1 else 0;
  }

  /** A step of a handler that neither starts nor ends its waiting for the player. */
  lemma OtherPhasesKeep(s: Server, t: Server)
    requires Answerable(s) && t.queue == s.queue && t.working == s.working
    requires forall id: nat :: Is(t, id, Awaiting(false)) <==> Is(s, id, Awaiting(false))
    ensures Answerable(t)
  {
    forall j: nat
      ensures InHand(t, j) == if Is(t, j, Awaiting(false)) then 1 else 0
    {
      assert InHand(s, j) == if Is(s, j, Awaiting(false)) then 1 else 0;
    }
  }

  lemma OtherStepsKeepAnswerable(s: Server, e: Event)
    requires Inv(s) && Answerable(s) && Enabled(s, e)
    requires e.Accept? || e.GotRequest? || e.ConnectionEnds? || e.GotReply? || e.ResponseWritten?
    ensures Answerable(Step(s, e))
  {
    OtherPhasesKeep(s, Step(s, e));
  }

  lemma PacketKeepsAnswerable(s: Server)
    requires Answerable(s) && Enabled(s, PacketArrives)
    ensures Answerable(Step(s, PacketArrives))
  {
    var t := Step(s, PacketArrives);
    forall j: nat
      ensures InHand(t, j) == if Is(t, j, Awaiting(false)) then 1 else 0
    {
      assert Internal != FromHandler(j);
      assert InHand(s, j) == if Is(s, j, Awaiting(false)) then 1 else 0;
    }
  }

  lemma StepKeepsAnswerable(s: Server, e: Event)
    requires Inv(s) && Answerable(s) && s.main == Serving && Enabled(s, e) && e != SelectEnds
    ensures Answerable(Step(s, e)) && Step(s, e).main == Serving
  {
    if e.CommandSent? {
      SentIsInHand(s, e.id);
    } else if e.PlayerTakes? {
      TakenIsInHand(s);
    } else if e.PlayerAnswers? {
      AnsweredIsDone(s);
    } else if e.PacketArrives? {
      PacketKeepsAnswerable(s);
    } else if e.ReplyLost? {
      AwaitingIsPending(s, e.id);
    } else if e.Accept? || e.GotRequest? || e.ConnectionEnds? || e.GotReply? || e.ResponseWritten? {
      OtherStepsKeepAnswerable(s, e);
    }
  }

  lemma OnlyOnceServing(s: Server, e: Event)
    requires Enabled(s, e) && Step(s, e).main == Serving
    ensures s.main == Serving && e != SelectEnds
  {
  }

  lemma {:induction false} LeadsSplit(s: Server, es: seq<Event>, t: Server) returns (mid: Server)
    requires es != [] && Leads(s, es, t)
    ensures Leads(s, es[..|es| - 1], mid) && Enabled(mid, es[|es| - 1]) && Step(mid, es[|es| - 1]) == t
    decreases |es|
  {
    if |es| == 1 {
      mid := s;
    } else {
      mid := LeadsSplit(Step(s, es[0]), es[1..], t);
      assert es[1..][..|es| - 2] == es[..|es| - 1][1..];
    }
  }

  lemma {:induction false} ServingIsAnswerable(s: Server, es: seq<Event>)
    requires Reachable(s, es) && s.main == Serving
    ensures Answerable(s)
    decreases |es|
  {
    if es != [] {
      var mid := LeadsSplit(Start(), es, s);
      OnlyOnceServing(mid, es[|es| - 1]);
      ServingIsAnswerable(mid, es[..|es| - 1]);
      RunsKeepInv(Start(), es[..|es| - 1], mid);
      StepKeepsAnswerable(mid, es[|es| - 1]);
    }
  }

  /** No reply is lost while the server serves: a handler waits for the player exactly when the player
      has its request, and once only. */
  lemma NoReplyIsLostWhileServing(s: Server, es: seq<Event>, id: nat)
    requires Reachable(s, es) && s.main == Serving
    ensures Is(s, id, Awaiting(false)) <==> Pending(s, id)
    ensures InHand(s, id) <= 1 && |s.queue| <= 4
    ensures !Enabled(s, ReplyLost(id)) && !Enabled(s, SendFailed(id)) && !Enabled(s, SawShutdown(id))
  {
    RunsKeepInv(Start(), es, s);
    ServingIsAnswerable(s, es);
    AwaitingIsPending(s, id);
    assert InHand(s, id) == if Is(s, id, Awaiting(false)) then 1 else 0;
  }

  /** While the server serves, a handler ends only with its connection, and never while the player has to
      do with its request. */
  lemma OnlyConnectionsEndHandlers(s: Server, es: seq<Event>, e: Event, id: nat)
    requires Reachable(s, es) && s.main == Serving && Enabled(s, e)
    requires id in s.handlers && id !in Step(s, e).handlers
    ensures e == ConnectionEnds(id) && (s.handlers[id] == Reading || s.handlers[id] == Writing)
  {
    NoReplyIsLostWhileServing(s, es, id);
  }

  lemma {:induction false} LeadsJoin(s: Server, es: seq<Event>, mid: Server, fs: seq<Event>, t: Server)
    requires Leads(s, es, mid) && Leads(mid, fs, t)
    ensures Leads(s, es + fs, t)
    decreases |es|
  {
    if es == [] {
      assert es + fs == fs;
    } else {
      assert (es + fs)[1..] == es[1..] + fs;
      LeadsJoin(Step(s, es[0]), es[1..], mid, fs, t);
    }
  }

  /** The server as it is between requests of its peers. */
  ghost predicate Good(s: Server) {
    Inv(s) && Answerable(s) && s.main == Serving
  }

  predicate PlayersStep(e: Event) {
    e == PlayerTakes || e == PlayerAnswers
  }

  /** Every handler is where it was, except that some have been answered. */
  ghost predicate OnlyAnswered(s: Server, t: Server) {
    && s.handlers.Keys == t.handlers.Keys
    && forall j :: j in s.handlers ==>
         t.handlers[j] == s.handlers[j] || (s.handlers[j] == Awaiting(false) && t.handlers[j] == Awaiting(true))
  }

  /** How many requests stand before the first one of this handler. */
  function Ahead(queue: seq<Request>, id: nat): (n: nat)
    requires FromHandler(id) in queue
    ensures n < |queue| && queue[n] == FromHandler(id)
    ensures forall k :: 0 <= k < n ==> queue[k] != FromHandler(id)
  {
    if queue[0] == FromHandler(id) then 0 else 1 + Ahead(queue[1..], id)
  }

  /** How many steps the player takes until it has answered this handler, serving one request after
      the other in the order in which they were sent. */
  function UntilAnswered(s: Server, id: nat): nat
    requires Pending(s, id)
  {
    if s.working == Some(FromHandler(id)) then 1
    else (if s.working.Some? then 1 else 0) + 2 * (Ahead(s.queue, id) + 1)
  }

  lemma PlayerGoesOn(s: Server, id: nat) returns (e: Event)
    requires Good(s) && Is(s, id, Awaiting(false)) && Pending(s, id)
    ensures PlayersStep(e) && Enabled(s, e) && Good(Step(s, e)) && OnlyAnswered(s, Step(s, e))
    ensures if UntilAnswered(s, id) == 1 then Is(Step(s, e), id, Awaiting(true))
            else Is(Step(s, e), id, Awaiting(false)) && Pending(Step(s, e), id) &&
                 UntilAnswered(Step(s, e), id) == UntilAnswered(s, id) - 1
  {
    if s.working.Some? {
      e := PlayerAnswers;
      AnsweredIsDone(s);
    } else {
      e := PlayerTakes;
    }
    StepKeepsInv(s, e);
    StepKeepsAnswerable(s, e);
  }

  /** The reply comes: from any state while the server serves, the player alone answers a waiting
      handler, after as many steps as the requests before it take, and at most nine. */
  lemma {:induction false} TheReplyComes(s: Server, id: nat) returns (es: seq<Event>, t: Server)
    requires Good(s) && Is(s, id, Awaiting(false)) && Pending(s, id)
    ensures Leads(s, es, t) && Good(t) && Is(t, id, Awaiting(true)) && OnlyAnswered(s, t)
    ensures |es| == UntilAnswered(s, id) <= 9
    ensures forall e :: e in es ==> PlayersStep(e)
    decreases UntilAnswered(s, id)
  {
    var e := PlayerGoesOn(s, id);
    if UntilAnswered(s, id) == 1 {
      es, t := [e], Step(s, e);
      assert Leads(Step(s, e), es[1..], t);
    } else {
      var rest;
      rest, t := TheReplyComes(Step(s, e), id);
      es := [e] + rest;
    }
  }

  /** The steps with which a handler gets its request served. */
  predicate ServesHandler(e: Event, id: nat) {
    PlayersStep(e) || e == CommandSent(id) || e == GotReply(id, false) || e == ResponseWritten(id)
  }

  ghost predicate ServedBy(s: Server, id: nat, es: seq<Event>, t: Server) {
    && Leads(s, es, t) && Good(t) && Is(t, id, Reading) && t.handlers.Keys == s.handlers.Keys
    && forall e :: e in es ==> ServesHandler(e, id)
  }

  lemma ServedLater(s: Server, id: nat, es: seq<Event>, mid: Server, fs: seq<Event>, t: Server)
    requires Leads(s, es, mid) && mid.handlers.Keys == s.handlers.Keys && ServedBy(mid, id, fs, t)
    requires forall e :: e in es ==> ServesHandler(e, id)
    ensures ServedBy(s, id, es + fs, t)
  {
    LeadsJoin(s, es, mid, fs, t);
  }

  lemma OneStep(s: Server, e: Event)
    requires Good(s) && Enabled(s, e) && e != SelectEnds
    ensures Leads(s, [e], Step(s, e)) && Good(Step(s, e))
  {
    StepKeepsInv(s, e);
    StepKeepsAnswerable(s, e);
    assert Leads(Step(s, e), [e][1..], Step(s, e));
  }

  lemma ServedFromWriting(s: Server, id: nat) returns (es: seq<Event>, t: Server)
    requires Good(s) && Is(s, id, Writing)
    ensures ServedBy(s, id, es, t)
  {
    OneStep(s, ResponseWritten(id));
    es, t := [ResponseWritten(id)], Step(s, ResponseWritten(id));
  }

  lemma ServedFromAnswered(s: Server, id: nat) returns (es: seq<Event>, t: Server)
    requires Good(s) && Is(s, id, Awaiting(true))
    ensures ServedBy(s, id, es, t)
  {
    var e := GotReply(id, false);
    OneStep(s, e);
    var fs;
    fs, t := ServedFromWriting(Step(s, e), id);
    ServedLater(s, id, [e], Step(s, e), fs, t);
    es := [e] + fs;
  }

  lemma ServedFromAwaiting(s: Server, id: nat) returns (es: seq<Event>, t: Server)
    requires Good(s) && Is(s, id, Awaiting(false))
    ensures ServedBy(s, id, es, t)
  {
    AwaitingIsPending(s, id);
    var first, mid := TheReplyComes(s, id);
    var fs;
    fs, t := ServedFromAnswered(mid, id);
    ServedLater(s, id, first, mid, fs, t);
    es := first + fs;
  }

  lemma PlayerOnlyAnswers(s: Server, e: Event)
    requires Good(s) && PlayersStep(e) && Enabled(s, e)
    ensures Leads(s, [e], Step(s, e)) && Good(Step(s, e)) && OnlyAnswered(s, Step(s, e))
    ensures |Step(s, e).queue| == |s.queue| - (if e == PlayerTakes then 1 else 0)
  {
    OneStep(s, e);
  }

  /** At most two steps of the player make room in its channel. */
  lemma RoomComes(s: Server) returns (es: seq<Event>, t: Server)
    requires Good(s)
    ensures Leads(s, es, t) && Good(t) && OnlyAnswered(s, t) && |t.queue| < CAPACITY && |es| <= 2
    ensures forall e :: e in es ==> PlayersStep(e)
  {
    es, t := [], s;
    if |s.queue| == CAPACITY && s.working.Some? {
      PlayerOnlyAnswers(s, PlayerAnswers);
      es, t := [PlayerAnswers], Step(s, PlayerAnswers);
    }
    if |t.queue| == CAPACITY {
      PlayerOnlyAnswers(t, PlayerTakes);
      LeadsJoin(s, es, t, [PlayerTakes], Step(t, PlayerTakes));
      es, t := es + [PlayerTakes], Step(t, PlayerTakes);
    }
  }

  lemma ServedFromSending(s: Server, id: nat) returns (es: seq<Event>, t: Server)
    requires Good(s) && Is(s, id, Sending)
    ensures ServedBy(s, id, es, t)
  {
    var room, mid := RoomComes(s);
    OneStep(mid, CommandSent(id));
    var fs;
    fs, t := ServedFromAwaiting(Step(mid, CommandSent(id)), id);
    ServedLater(mid, id, [CommandSent(id)], Step(mid, CommandSent(id)), fs, t);
    ServedLater(s, id, room, mid, [CommandSent(id)] + fs, t);
    es := room + ([CommandSent(id)] + fs);
  }

  /** Every request can be served: from every reachable state in which the server serves, a handler
      that has a request gets back to reading by its own and the player's steps alone, and no
      connection is lost on the way. */
  lemma EveryRequestCanBeServed(s: Server, history: seq<Event>, id: nat) returns (es: seq<Event>, t: Server)
    requires Reachable(s, history) && s.main == Serving && id in s.handlers
    ensures Leads(s, es, t) && t.main == Serving && Is(t, id, Reading) && t.handlers.Keys == s.handlers.Keys
    ensures forall e :: e in es ==> ServesHandler(e, id)
  {
    RunsKeepInv(Start(), history, s);
    ServingIsAnswerable(s, history);
    match s.handlers[id]
    case Reading => es, t := [], s;
    case Sending => es, t := ServedFromSending(s, id);
    case Awaiting(answered) =>
      if answered {
        es, t := ServedFromAnswered(s, id);
      } else {
        es, t := ServedFromAwaiting(s, id);
      }
    case Writing => es, t := ServedFromWriting(s, id);
  }

  // ---------------------------------------------------------------------------------
  // Where a handler is, told from what it has done
  // ---------------------------------------------------------------------------------

  /** A step in which this handler goes on with a request. */
  predicate IsOwn(e: Event, id: nat) {
    match e
    case GotRequest(i, _) => i == id
    case CommandSent(i) => i == id
    case GotReply(i, _) => i == id
    case ResponseWritten(i) => i == id
    case _ => false
  }

  function LatestOwn(es: seq<Event>, id: nat): Option<Event> {
    if es == [] then None
    else if IsOwn(es[|es| - 1], id) then Some(es[|es| - 1])
    else LatestOwn(es[..|es| - 1], id)
  }

  /** A handler reads when it has done nothing yet or has written a response; it sends when its request
      needs the player, or when a reply was not the last one needed; it waits when it has sent; and it
      writes when nothing more is needed from the player. */
  predicate Follows(p: Phase, latest: Option<Event>) {
    match p
    case Reading => latest == None || latest.value.ResponseWritten?
    case Sending =>
      latest.Some? && ((latest.value.GotRequest? && latest.value.needsPlayer) ||
                       (latest.value.GotReply? && latest.value.more))
    case Awaiting(_) => latest.Some? && latest.value.CommandSent?
    case Writing =>
      latest.Some? && ((latest.value.GotRequest? && !latest.value.needsPlayer) ||
                       (latest.value.GotReply? && !latest.value.more))
  }

  lemma LatestOneMore(es: seq<Event>, e: Event, id: nat)
    ensures LatestOwn(es + [e], id) == if IsOwn(e, id) then Some(e) else LatestOwn(es, id)
  {
    assert (es + [e])[..|es|] == es;
  }

  lemma OwnStepFollows(s: Server, e: Event, id: nat)
    requires Inv(s) && Enabled(s, e) && IsOwn(e, id)
    ensures id in s.handlers && id < Step(s, e).accepted
    ensures id in Step(s, e).handlers && Follows(Step(s, e).handlers[id], Some(e))
  {
  }

  lemma OtherStepFollows(s: Server, e: Event, id: nat, latest: Option<Event>)
    requires Inv(s) && Enabled(s, e) && !IsOwn(e, id)
    requires id in s.handlers ==> Follows(s.handlers[id], latest)
    requires id >= s.accepted ==> latest == None
    ensures id in Step(s, e).handlers ==> Follows(Step(s, e).handlers[id], latest)
    ensures s.accepted <= Step(s, e).accepted
  {
  }

  lemma StepFollows(s: Server, es: seq<Event>, e: Event, id: nat)
    requires Inv(s) && Enabled(s, e)
    requires id in s.handlers ==> Follows(s.handlers[id], LatestOwn(es, id))
    requires id >= s.accepted ==> LatestOwn(es, id) == None
    ensures id in Step(s, e).handlers ==> Follows(Step(s, e).handlers[id], LatestOwn(es + [e], id))
    ensures id >= Step(s, e).accepted ==> LatestOwn(es + [e], id) == None
  {
    LatestOneMore(es, e, id);
    if IsOwn(e, id) {
      OwnStepFollows(s, e, id);
    } else {
      OtherStepFollows(s, e, id, LatestOwn(es, id));
    }
  }

  /** In every run, each handler's phase is that of its latest step: no response is written before the
      player's reply to a request that needs it, and nothing is asked of the player unasked. */
  lemma {:induction false} PhaseIsHistory(s: Server, es: seq<Event>, id: nat)
    requires Reachable(s, es)
    ensures id in s.handlers ==> Follows(s.handlers[id], LatestOwn(es, id))
    ensures id >= s.accepted ==> LatestOwn(es, id) == None
    decreases |es|
  {
    if es != [] {
      var before, e := es[..|es| - 1], es[|es| - 1];
      var mid := LeadsSplit(Start(), es, s);
      RunsKeepInv(Start(), before, mid);
      PhaseIsHistory(mid, before, id);
      StepFollows(mid, before, e, id);
      assert before + [e] == es;
    }
  }

  // ---------------------------------------------------------------------------------
  // Progress
  // ---------------------------------------------------------------------------------

  /** How many more steps a handler can take once the player and the shutdown sender are gone. */
  function Rank(p: Phase): nat {
    match p
    case Reading => 1
    case Sending => 1
    case Awaiting(answered) => if answered then 3 else 1
    case Writing => 2
  }

  ghost function Ranks(handlers: map<nat, Phase>): nat
    decreases |handlers|
  {
    if handlers == map[] then 0
    else
      var id :| id in handlers;
      Ranks(handlers - {id}) + Rank(handlers[id])
  }

  lemma {:induction false} RanksWithout(handlers: map<nat, Phase>, id: nat)
    requires id in handlers
    ensures Ranks(handlers) == Ranks(handlers - {id}) + Rank(handlers[id])
    decreases |handlers|
  {
    var j :| j in handlers && Ranks(handlers) == Ranks(handlers - {j}) + Rank(handlers[j]);
    if j != id {
      RanksWithout(handlers - {j}, id);
      RanksWithout(handlers - {id}, j);
      assert handlers - {j} - {id} == handlers - {id} - {j};
    }
  }

  /** What is left to happen. */
  ghost function Remaining(s: Server): nat {
    Ranks(s.handlers) + (6 - Order(s.main))
  }

  lemma RanksGoto(s: Server, id: nat, p: Phase)
    requires id in s.handlers
    ensures Ranks(Goto(s, id, p).handlers) == Ranks(s.handlers) - Rank(s.handlers[id]) + Rank(p)
  {
    RanksWithout(s.handlers, id);
    RanksWithout(Goto(s, id, p).handlers, id);
    assert Goto(s, id, p).handlers - {id} == s.handlers - {id};
  }

  predicate Shut(s: Server) {
    Order(s.main) >= Order(DropComplete)
  }

  /** Once player and shutdown sender are dropped, every step other than a peer's new request brings
      the end nearer. */
  lemma EveryStepBringsTheEndNearer(s: Server, e: Event)
    requires Inv(s) && Shut(s) && Enabled(s, e) && !e.GotRequest?
    ensures Shut(Step(s, e)) && Remaining(Step(s, e)) < Remaining(s)
  {
    match e
    case ConnectionEnds(id) => RanksWithout(s.handlers, id);
    case SawShutdown(id) => RanksWithout(s.handlers, id);
    case SendFailed(id) => RanksWithout(s.handlers, id);
    case ReplyLost(id) => RanksWithout(s.handlers, id);
    case GotReply(id, more) => RanksGoto(s, id, if more then Sending else Writing);
    case ResponseWritten(id) => RanksGoto(s, id, Reading);
    case _ =>
  }

  /** The step a handler can always take then, whatever it is waiting for. */
  function WayOut(id: nat, p: Phase): Event {
    match p
    case Reading => SawShutdown(id)
    case Sending => SendFailed(id)
    case Awaiting(answered) => if answered then GotReply(id, false) else ReplyLost(id)
    case Writing => ResponseWritten(id)
  }

  lemma NoHandlerIsStuck(s: Server, id: nat)
    requires Inv(s) && Shut(s) && id in s.handlers
    ensures Enabled(s, WayOut(id, s.handlers[id]))
  {
  }

  /** All along, the main task can go on by itself except in its select and in its final wait, and
      from there once the handlers are gone. */
  lemma NeverStuck(s: Server) returns (e: Event)
    requires Inv(s) && s.main != Returned
    ensures Enabled(s, e) && !e.GotRequest? && e != Accept
    ensures !Shut(s) ==> e == SelectEnds || e == MainDrops
  {
    match s.main
    case Serving => e := SelectEnds;
    case Waiting =>
      if s.handlers == map[] {
        e := WaitEnds;
      } else {
        var id :| id in s.handlers;
        NoHandlerIsStuck(s, id);
        e := WayOut(id, s.handlers[id]);
      }
    case _ => e := MainDrops;
  }

  lemma {:induction false} CanReturn(s: Server) returns (es: seq<Event>, t: Server)
    requires Inv(s)
    ensures Leads(s, es, t) && t.main == Returned && t.handlers == map[]
    ensures forall e :: e in es ==> !e.GotRequest? && e != Accept
    decreases One(!Shut(s)), if Shut(s) then Remaining(s) else 6 - Order(s.main)
  {
    if s.main == Returned {
      return [], s;
    }
    var e := NeverStuck(s);
    StepKeepsInv(s, e);
    if Shut(s) {
      EveryStepBringsTheEndNearer(s, e);
    }
    var rest;
    rest, t := CanReturn(Step(s, e));
    es := [e] + rest;
  }

  /** Deadlock freedom: from every reachable state, with any number of handlers in any phase, the
      server can return without another connection or request. */
  lemma ShutdownIsAlwaysPossible(s: Server, history: seq<Event>) returns (es: seq<Event>, t: Server)
    requires Reachable(s, history)
    ensures Leads(s, es, t) && t.main == Returned && t.handlers == map[]
    ensures forall e :: e in es ==> !e.GotRequest? && e != Accept
  {
    RunsKeepInv(Start(), history, s);
    es, t := CanReturn(s);
  }

  /** And it will: after the drops, a run without new requests is no longer than what remains. */
  lemma {:induction false} TheWaitIsBounded(s: Server, es: seq<Event>, t: Server)
    requires Inv(s) && Shut(s) && Leads(s, es, t)
    requires forall e :: e in es ==> !e.GotRequest?
    ensures |es| + Remaining(t) <= Remaining(s)
    decreases |es|
  {
    if es != [] {
      assert es[0] in es;
      StepKeepsInv(s, es[0]);
      EveryStepBringsTheEndNearer(s, es[0]);
      TheWaitIsBounded(Step(s, es[0]), es[1..], t);
    }
  }
}
