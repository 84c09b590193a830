/** The state of the center server as a value, its invariant, and the steps that keep it: a hall
    with two indexes over the same entries, rooms shared by two players, one armed timer per room,
    and players who come back under new connection ids (center_server.cc). */
module Session {

  datatype State = Online | Matching | Playing | Disconnected | DisconnectedInPlaying

  datatype OverType = Win | SelfTimeout | SelfGiveup | Draw

  /** What the login server knows about a user. */
  datatype UserInfo = UserInfo(name: string, score: int, total: int, nwin: int, nloss: int)

  class RoomInfo {
    const quick: bool
    var timer: nat
    var fen: string
    var lastMoveStep: int
    var totalSteps: int

    constructor (quick: bool)
      ensures this.quick == quick && totalSteps == 0 && fen == "" && lastMoveStep == -1
    {
      this.quick, timer, fen, lastMoveStep, totalSteps := quick, 0, "", -1, 0;
    }
  }

  class InGameInfo {
    var connId: int
    const red: bool
    const info: RoomInfo
    var oppPlayer: InGameInfo?

    constructor (connId: int, red: bool, info: RoomInfo)
      ensures this.connId == connId && this.red == red && this.info == info && oppPlayer == null
    {
      this.connId, this.red, this.info, oppPlayer := connId, red, info, null;
    }
  }

  class Entry {
    const name: string
    var connId: int
    var score: int
    var total: int
    var nwin: int
    var nloss: int
    var state: State
    var gameInfo: InGameInfo?

    constructor (connId: int, user: UserInfo)
      ensures this.connId == connId && name == user.name && UserInfo(name, score, total, nwin, nloss) == user
      ensures state == Online && gameInfo == null
    {
      this.connId, name, score, total, nwin, nloss := connId, user.name, user.score, user.total, user.nwin, user.nloss;
      state, gameInfo := Online, null;
    }
  }

  /** The two players of a live room. */
  datatype Players = Players(red: Entry, black: Entry) {
    predicate Has(e: Entry) { e == red || e == black }

    function ToMove(steps: int): Entry { if steps % 2 == 0 then red else black }
  }

  datatype Event =
    | LoggedIn(id: nat, user: UserInfo)
    | MatchAsked(id: nat)
    | CancelAsked(id: nat)
    | Paired(redName: string, blackName: string, quick: bool)
    | Moved(id: nat, over: bool, fen: string, mv: int)
    | GaveUp(id: nat)
    | TakeBackAnswered(id: nat, agree: bool, fen: string, mv: int)
    | DrawAnswered(id: nat, agree: bool)
    | WentAway(id: nat)
    | TimedOut(timer: nat)

  // ---- Scores ----

  /** A score change of one entry. */
  datatype Change = Change(entry: Entry, amount: int)

  /** The sum of all changes. */
  ghost function Net(log: seq<Change>): int {
    if log == [] then 0 else Net(log[..|log| - 1]) + log[|log| - 1].amount
  }

  /** The sum of the changes of one entry. */
  ghost function NetOf(log: seq<Change>, e: Entry): int {
    if log == [] then 0
    else NetOf(log[..|log| - 1], e) + if log[|log| - 1].entry == e then log[|log| - 1].amount else 0
  }

  lemma NetAppend(log: seq<Change>, c: Change)
    ensures Net(log + [c]) == Net(log) + c.amount
    ensures forall e :: NetOf(log + [c], e) == NetOf(log, e) + if c.entry == e then c.amount else 0
  {
    assert (log + [c])[..|log|] == log;
  }

  /** The sum of what a map gives the entries of a list. */
  ghost function SumOver(roll: seq<Entry>, m: map<Entry, int>): int
    requires forall e :: e in roll ==> e in m
  {
    if roll == [] then 0 else SumOver(roll[..|roll| - 1], m) + m[roll[|roll| - 1]]
  }

  ghost predicate NoTwice(roll: seq<Entry>) {
    forall i, j :: 0 <= i < j < |roll| ==> roll[i] != roll[j]
  }

  /** What a log adds to each entry. */
  ghost function Nets(entries: set<Entry>, log: seq<Change>): map<Entry, int> {
    map e | e in entries :: NetOf(log, e)
  }

  lemma {:induction false} SumZeros(roll: seq<Entry>, m: map<Entry, int>)
    requires forall e :: e in roll ==> e in m && m[e] == 0
    ensures SumOver(roll, m) == 0
  {
    if roll != [] {
      SumZeros(roll[..|roll| - 1], m);
    }
  }

  lemma {:induction false} SumPlus(roll: seq<Entry>, a: map<Entry, int>, b: map<Entry, int>, c: map<Entry, int>)
    requires forall e :: e in roll ==> e in a && e in b && e in c && c[e] == a[e] + b[e]
    ensures SumOver(roll, c) == SumOver(roll, a) + SumOver(roll, b)
  {
    if roll != [] {
      SumPlus(roll[..|roll| - 1], a, b, c);
    }
  }

  /** A change of one entry of the list changes the sum by as much. */
  lemma {:induction false} SumChange(roll: seq<Entry>, a: map<Entry, int>, b: map<Entry, int>, c: Change)
    requires NoTwice(roll)
    requires forall e :: e in roll ==> e in a && e in b && b[e] == a[e] + if e == c.entry then c.amount else 0
    ensures SumOver(roll, b) == SumOver(roll, a) + if c.entry in roll then c.amount else 0
  {
    if roll != [] {
      var n := |roll| - 1;
      SumChange(roll[..n], a, b, c);
      assert roll == roll[..n] + [roll[n]];
      assert roll[n] !in roll[..n];
    }
  }

  /** Over all entries, what a log adds is the sum of its changes. */
  lemma {:induction false} SumOfNets(roll: seq<Entry>, entries: set<Entry>, log: seq<Change>)
    requires NoTwice(roll) && (forall e :: e in roll <==> e in entries) && forall c :: c in log ==> c.entry in entries
    ensures SumOver(roll, Nets(entries, log)) == Net(log)
  {
    if log == [] {
      SumZeros(roll, Nets(entries, log));
    } else {
      var n := |log| - 1;
      assert log == log[..n] + [log[n]] && log[n] in log;
      SumOfNets(roll, entries, log[..n]);
      SumChange(roll, Nets(entries, log[..n]), Nets(entries, log), log[n]);
    }
  }

  /** What the first player's score changes by. */
  function ChangeScore(over: OverType): int {
    match over
    case Win => 10
    case SelfTimeout => -10
    case SelfGiveup => -10
    case Draw => 0
  }

  // ---- The hall as a value ----

  datatype Seat = Seat(connId: int, state: State, info: InGameInfo?)

  datatype Link = Link(connId: int, opp: InGameInfo?)

  /** The position and the last move that a player who comes back is shown. */
  datatype Shown = Shown(fen: string, mv: int)

  datatype Clock = Clock(timer: nat, steps: int, shown: Shown)

  /** What the server, its entries, its game infos and its rooms say at one moment. live and ended
      are bookkeeping: the rooms with a game going on, and the rooms whose game is over. */
  datatype Hall = Hall(entrys: map<int, Entry>, userList: map<string, int>, timers: map<nat, Entry>, nextTimer: nat,
                       seats: map<Entry, Seat>, links: map<InGameInfo, Link>, clocks: map<RoomInfo, Clock>,
                       live: map<RoomInfo, Players>, ended: seq<RoomInfo>)

  predicate InRoom(s: State) { s == Playing || s == DisconnectedInPlaying }

  /** The two indexes are inverse to each other. */
  ghost predicate Indexed(h: Hall) {
    && (forall id :: id in h.entrys ==>
          && id >= 0 && h.entrys[id] in h.seats && h.seats[h.entrys[id]].connId == id
          && h.entrys[id].name in h.userList && h.userList[h.entrys[id].name] == id)
    && (forall u :: u in h.userList ==> h.userList[u] in h.entrys && h.entrys[h.userList[u]].name == u)
  }

  /** e is in the hall under its present connection. */
  ghost predicate Present(h: Hall, e: Entry) {
    e in h.seats && h.seats[e].connId in h.entrys && h.entrys[h.seats[e].connId] == e
  }

  /** A hall entry plays, or is disconnected while playing, exactly when it sits in a live room. */
  ghost predicate Seated(h: Hall, e: Entry) {
    && e in h.seats && h.seats[e].state != Disconnected && (InRoom(h.seats[e].state) <==> h.seats[e].info != null)
    && (h.seats[e].info != null ==> h.seats[e].info.info in h.live && h.live[h.seats[e].info.info].Has(e))
  }

  /** One player of a live room, seen from the other. */
  ghost predicate Linked(h: Hall, e: Entry, opp: Entry, r: RoomInfo, red: bool) {
    && Present(h, e) && Present(h, opp) && h.seats[e].info != null && h.seats[opp].info != null
    && h.seats[e].info in h.links && h.links[h.seats[e].info] == Link(h.seats[e].connId, h.seats[opp].info)
    && h.seats[e].info.info == r && h.seats[e].info.red == red
  }

  /** A live room: two linked players of opposite colour, and one timer that belongs to the player to move. */
  ghost predicate Table(h: Hall, r: RoomInfo) {
    && r in h.live && r in h.clocks
    && Linked(h, h.live[r].red, h.live[r].black, r, true) && Linked(h, h.live[r].black, h.live[r].red, r, false)
    && h.clocks[r].timer in h.timers && h.timers[h.clocks[r].timer] == h.live[r].ToMove(h.clocks[r].steps)
  }

  /** An armed timer is the one stored in the live room of the player it belongs to. */
  ghost predicate Armed(h: Hall, t: nat) {
    && t in h.timers && t < h.nextTimer && h.timers[t] in h.seats
    && var info := h.seats[h.timers[t]].info;
       info != null && info.info in h.live && info.info in h.clocks && h.clocks[info.info].timer == t
  }

  ghost predicate AllSeated(h: Hall) { forall id :: id in h.entrys ==> Seated(h, h.entrys[id]) }

  ghost predicate AllTables(h: Hall) { forall r :: r in h.live ==> Table(h, r) }

  ghost predicate AllArmed(h: Hall) { forall t :: t in h.timers ==> Armed(h, t) }

  /** No room ends twice, and none that ended is live. */
  ghost predicate EndedOnce(h: Hall) {
    && (forall r :: r in h.ended ==> r !in h.live && r in h.clocks)
    && (forall i, j :: 0 <= i < j < |h.ended| ==> h.ended[i] != h.ended[j])
  }

  ghost predicate Good(h: Hall) {
    Indexed(h) && AllSeated(h) && AllTables(h) && AllArmed(h) && EndedOnce(h)
  }

  lemma EmptyGood(h: Hall)
    requires h.entrys == map[] && h.userList == map[] && h.timers == map[] && h.live == map[] && h.ended == []
    ensures Good(h)
  {
  }

  // ---- What the invariant means ----

  /** entrys and userList are inverse to each other. */
  lemma InverseIndexes(h: Hall, id: int, u: string)
    requires Good(h)
    ensures id in h.entrys && h.entrys[id].name == u <==> u in h.userList && h.userList[u] == id
  {
  }

  /** A hall entry that plays or is disconnected while playing has an opponent in the hall, of the
      other colour, in the same room, and both know each other's present connection. */
  lemma OpponentOf(h: Hall, e: Entry)
    requires Good(h) && Present(h, e)
    ensures h.seats[e].state != Disconnected
    ensures InRoom(h.seats[e].state) <==> h.seats[e].info != null
    ensures h.seats[e].info != null ==>
              var i := h.seats[e].info;
              && i in h.links && h.links[i].opp != null && h.links[i].opp in h.links && i.info in h.live
              && var j := h.links[i].opp;
                 && h.links[j].connId in h.entrys
                 && var opp := h.entrys[h.links[j].connId];
                    && opp != e && Present(h, opp) && InRoom(h.seats[opp].state) && h.seats[opp].info == j
                    && h.links[j].opp == i && j.red == !i.red && j.info == i.info
                    && h.links[i].connId == h.seats[e].connId
                    && h.live[i.info] == (if i.red then Players(e, opp) else Players(opp, e))
  {
    assert Seated(h, h.entrys[h.seats[e].connId]);
    if h.seats[e].info != null {
      assert Table(h, h.seats[e].info.info);
      var p := h.live[h.seats[e].info.info];
      var opp := if e == p.red then p.black else p.red;
      assert Seated(h, h.entrys[h.seats[opp].connId]);
    }
  }

  /** Every live room has exactly one armed timer: the one it stores, which belongs to the player to move. */
  lemma OneTimerPerRoom(h: Hall, r: RoomInfo, t: nat)
    requires Good(h) && r in h.live
    ensures r in h.clocks && h.clocks[r].timer in h.timers
    ensures h.timers[h.clocks[r].timer] == h.live[r].ToMove(h.clocks[r].steps)
    ensures t in h.timers ==> h.timers[t] in h.seats && h.seats[h.timers[t]].info != null
    ensures t in h.timers && h.seats[h.timers[t]].info.info == r ==> t == h.clocks[r].timer
  {
    assert Table(h, r);
    if t in h.timers {
      assert Armed(h, t);
    }
  }

  /** No timer is armed for a room whose game is over. */
  lemma NoTimerOnEnded(h: Hall, t: nat)
    requires Good(h) && t in h.timers
    ensures h.timers[t] in h.seats && h.seats[h.timers[t]].info != null
    ensures h.seats[h.timers[t]].info.info !in h.ended
  {
    assert Armed(h, t);
  }

  // ---- Steps ----

  ghost function Enter(h: Hall, e: Entry, id: int): Hall {
    h.(entrys := h.entrys[id := e], userList := h.userList[e.name := id], seats := h.seats[e := Seat(id, Online, null)])
  }

  ghost function SetState(h: Hall, e: Entry, state: State): Hall
    requires e in h.seats
  {
    h.(seats := h.seats[e := h.seats[e].(state := state)])
  }

  ghost function Leave(h: Hall, e: Entry): Hall
    requires e in h.seats
  {
    h.(entrys := h.entrys - {h.seats[e].connId}, userList := h.userList - {e.name})
  }

  /** createRoom and startNewGame. */
  ghost function Sit(h: Hall, red: Entry, black: Entry, r: RoomInfo, ri: InGameInfo, bi: InGameInfo): Hall
    requires red in h.seats && black in h.seats
  {
    h.(seats := h.seats[red := Seat(h.seats[red].connId, Playing, ri)]
                       [black := Seat(h.seats[black].connId, Playing, bi)],
       links := h.links[ri := Link(h.seats[red].connId, bi)][bi := Link(h.seats[black].connId, ri)],
       clocks := h.clocks[r := Clock(h.nextTimer, 0, Shown("", -1))], live := h.live[r := Players(red, black)],
       timers := h.timers[h.nextTimer := red], nextTimer := h.nextTimer + 1)
  }

  /** A step or a take-back: the old timer is cancelled and one for e armed. */
  ghost function Rearm(h: Hall, r: RoomInfo, e: Entry, steps: int, shown: Shown): Hall
    requires r in h.clocks
  {
    h.(timers := (h.timers - {h.clocks[r].timer})[h.nextTimer := e], nextTimer := h.nextTimer + 1,
       clocks := h.clocks[r := Clock(h.nextTimer, steps, shown)])
  }

  /** destroyRoomInfoOfEntry. */
  ghost function Drop(h: Hall, e: Entry): (g: Hall)
    requires e in h.seats
    ensures forall x :: x in h.seats ==> x in g.seats
  {
    if h.seats[e].state == DisconnectedInPlaying || h.seats[e].state == Disconnected
    then Leave(SetState(h, e, Disconnected), e)
    else if h.seats[e].state == Playing then h.(seats := h.seats[e := Seat(h.seats[e].connId, Online, null)])
    else h
  }

  /** gameOver, scores aside. */
  ghost function Over(h: Hall, r: RoomInfo, e: Entry, opp: Entry): Hall
    requires r in h.clocks && e in h.seats && opp in h.seats
  {
    Drop(Drop(h.(timers := h.timers - {h.clocks[r].timer}, live := h.live - {r}, ended := h.ended + [r]), e), opp)
  }

  /** onReconnected: out of the hall under the old connection and in again under the new one. */
  ghost function Return(h: Hall, e: Entry, id: int): Hall
    requires e in h.seats && h.seats[e].info != null && h.seats[e].info in h.links
  {
    var out := Leave(h, e);
    out.(entrys := out.entrys[id := e], userList := out.userList[e.name := id],
         seats := h.seats[e := Seat(id, Playing, h.seats[e].info)],
         links := h.links[h.seats[e].info := Link(id, h.links[h.seats[e].info].opp)])
  }

  // ---- Steps keep the invariant ----

  /** e stands where it stood, with the same link. */
  ghost predicate Same(h: Hall, g: Hall, e: Entry) {
    Present(h, e) ==>
      && Present(g, e) && g.seats[e].connId == h.seats[e].connId && g.seats[e].info == h.seats[e].info
      && (h.seats[e].info in h.links ==>
        h.seats[e].info in g.links && g.links[h.seats[e].info] == h.links[h.seats[e].info])
  }

  /** A step left room r alone. */
  ghost predicate Untouched(h: Hall, g: Hall, r: RoomInfo) {
    && r in h.live && r in g.live && g.live[r] == h.live[r]
    && (r in h.clocks ==> r in g.clocks && g.clocks[r] == h.clocks[r])
    && (r in h.clocks && h.clocks[r].timer in h.timers ==>
          h.clocks[r].timer in g.timers && g.timers[h.clocks[r].timer] == h.timers[h.clocks[r].timer])
    && Same(h, g, h.live[r].red) && Same(h, g, h.live[r].black)
  }

  lemma TableKept(h: Hall, g: Hall, r: RoomInfo)
    requires Table(h, r) && Untouched(h, g, r)
    ensures Table(g, r)
  {
  }

  lemma TablesKept(h: Hall, g: Hall)
    requires AllTables(h) && forall r :: r in g.live ==> Untouched(h, g, r)
    ensures AllTables(g)
  {
    hide Table, Untouched;
    forall r | r in g.live
      ensures Table(g, r)
    {
      UntouchedLive(h, g, r);
      TableKept(h, g, r);
    }
  }

  lemma UntouchedLive(h: Hall, g: Hall, r: RoomInfo)
    requires Untouched(h, g, r)
    ensures r in h.live
  {
  }

  lemma EnterGood(h: Hall, e: Entry, id: int)
    requires Good(h) && e !in h.seats && id >= 0 && id !in h.entrys && e.name !in h.userList
    ensures Good(Enter(h, e, id))
  {
    hide AllTables, AllSeated, Indexed;
    var g := Enter(h, e, id);
    EnterIndexed(h, e, id);
    EnterTables(h, e, id);
    assert AllArmed(g);
  }

  lemma EnterIndexed(h: Hall, e: Entry, id: int)
    requires Indexed(h) && AllSeated(h) && e !in h.seats && id >= 0 && id !in h.entrys && e.name !in h.userList
    ensures Indexed(Enter(h, e, id)) && AllSeated(Enter(h, e, id))
  {
  }

  lemma EnterTables(h: Hall, e: Entry, id: int)
    requires AllTables(h) && e !in h.seats && id !in h.entrys
    ensures AllTables(Enter(h, e, id))
  {
    var g := Enter(h, e, id);
    forall r | r in g.live
      ensures Untouched(h, g, r)
    {
      assert Table(h, r);
    }
    TablesKept(h, g);
  }

  /** Between Online and Matching, or from Playing to disconnected in play. */
  lemma SetStateGood(h: Hall, e: Entry, state: State)
    requires Good(h) && Present(h, e) && state != Disconnected && (InRoom(state) <==> InRoom(h.seats[e].state))
    ensures Good(SetState(h, e, state))
  {
    hide AllTables, Indexed, AllArmed;
    SetStateRest(h, e, state);
    SetStateTables(h, e, state);
  }

  lemma SetStateRest(h: Hall, e: Entry, state: State)
    requires Indexed(h) && AllArmed(h) && e in h.seats
    ensures Indexed(SetState(h, e, state)) && AllArmed(SetState(h, e, state))
  {
  }

  lemma SetStateTables(h: Hall, e: Entry, state: State)
    requires AllTables(h) && e in h.seats
    ensures AllTables(SetState(h, e, state))
  {
    var g := SetState(h, e, state);
    forall r | r in g.live
      ensures Untouched(h, g, r)
    {
      assert Table(h, r);
    }
    TablesKept(h, g);
  }

  lemma LeaveGood(h: Hall, e: Entry)
    requires Good(h) && Present(h, e) && !InRoom(h.seats[e].state)
    ensures Good(Leave(h, e))
  {
    assert Seated(h, h.entrys[h.seats[e].connId]);
    LeaveTables(h, e);
    LeaveIndexed(h, e);
    assert AllSeated(Leave(h, e));
    assert AllArmed(Leave(h, e));
  }

  /** Leaving the hall keeps it sound exactly for those who are in no game: a second disconnection
      of a player disconnected in a game breaks it. */
  lemma LeaveExact(h: Hall, e: Entry)
    requires Good(h) && Present(h, e)
    ensures Good(Leave(h, e)) <==> !InRoom(h.seats[e].state)
  {
    hide Indexed, AllTables, AllSeated;
    if InRoom(h.seats[e].state) {
      LeaveBreaks(h, e);
    } else {
      LeaveGood(h, e);
    }
  }

  lemma LeaveBreaks(h: Hall, e: Entry)
    requires Good(h) && Present(h, e) && InRoom(h.seats[e].state)
    ensures !AllTables(Leave(h, e))
  {
    var g := Leave(h, e);
    assert Seated(h, h.entrys[h.seats[e].connId]);
    assert !Table(g, h.seats[e].info.info);
  }

  lemma LeaveIndexed(h: Hall, e: Entry)
    requires Indexed(h) && Present(h, e)
    ensures Indexed(Leave(h, e))
  {
  }

  /** An entry that sits in no live room can leave without disturbing one. */
  lemma LeaveTables(h: Hall, e: Entry)
    requires AllTables(h) && Present(h, e)
    requires h.seats[e].info == null || h.seats[e].info.info !in h.live
    ensures AllTables(Leave(h, e))
  {
    var g := Leave(h, e);
    forall r | r in g.live
      ensures Untouched(h, g, r)
    {
      assert Table(h, r);
    }
    TablesKept(h, g);
  }

  /** The objects of a new room. */
  ghost predicate NewRoom(h: Hall, r: RoomInfo, ri: InGameInfo, bi: InGameInfo) {
    r !in h.clocks && ri !in h.links && bi !in h.links && ri != bi && ri.info == r && bi.info == r && ri.red && !bi.red
  }

  lemma SitGood(h: Hall, red: Entry, black: Entry, r: RoomInfo, ri: InGameInfo, bi: InGameInfo)
    requires Good(h) && Present(h, red) && Present(h, black) && red != black && NewRoom(h, r, ri, bi)
    requires h.seats[red].state == Matching && h.seats[black].state == Matching
    ensures Good(Sit(h, red, black, r, ri, bi))
  {
    hide AllTables, AllSeated, Indexed, AllArmed;
    NewRoomFree(h, r);
    SitSeats(h, red, black, r, ri, bi);
    SitTables(h, red, black, r, ri, bi);
    SitArmed(h, red, black, r, ri, bi);
  }

  lemma NewRoomFree(h: Hall, r: RoomInfo)
    requires AllTables(h) && r !in h.clocks
    ensures r !in h.live
  {
    if r in h.live {
      LiveHasClock(h, r);
    }
  }

  lemma LiveHasClock(h: Hall, r: RoomInfo)
    requires AllTables(h) && r in h.live
    ensures r in h.clocks
  {
    assert Table(h, r);
  }

  lemma SitSeats(h: Hall, red: Entry, black: Entry, r: RoomInfo, ri: InGameInfo, bi: InGameInfo)
    requires Indexed(h) && AllSeated(h) && Present(h, red) && Present(h, black) && red != black && NewRoom(h, r, ri, bi)
    requires r !in h.live
    ensures Indexed(Sit(h, red, black, r, ri, bi)) && AllSeated(Sit(h, red, black, r, ri, bi))
  {
  }

  lemma SitTables(h: Hall, red: Entry, black: Entry, r: RoomInfo, ri: InGameInfo, bi: InGameInfo)
    requires Good(h) && Present(h, red) && Present(h, black) && red != black && NewRoom(h, r, ri, bi)
    requires h.seats[red].state == Matching && h.seats[black].state == Matching
    ensures AllTables(Sit(h, red, black, r, ri, bi))
  {
    hide Indexed, EndedOnce, AllTables, Table, Seated, Armed;
    SitNewTable(h, red, black, r, ri, bi);
    SitTablesAll(h, red, black, r, ri, bi);
  }

  lemma SitNewTable(h: Hall, red: Entry, black: Entry, r: RoomInfo, ri: InGameInfo, bi: InGameInfo)
    requires Present(h, red) && Present(h, black) && red != black && NewRoom(h, r, ri, bi)
    ensures Table(Sit(h, red, black, r, ri, bi), r)
  {
  }

  lemma SitTablesAll(h: Hall, red: Entry, black: Entry, r: RoomInfo, ri: InGameInfo, bi: InGameInfo)
    requires AllTables(h) && AllArmed(h) && AllSeated(h) && NewRoom(h, r, ri, bi)
    requires Present(h, red) && Present(h, black) && red != black
    requires h.seats[red].state == Matching && h.seats[black].state == Matching
    requires Table(Sit(h, red, black, r, ri, bi), r)
    ensures AllTables(Sit(h, red, black, r, ri, bi))
  {
    hide Table, Seated, Armed, Untouched, NewRoom;
    var g := Sit(h, red, black, r, ri, bi);
    forall q | q in g.live
      ensures Table(g, q)
    {
      if q != r {
        SitUntouched(h, red, black, r, ri, bi, q);
        TableKept(h, g, q);
      }
    }
  }

  lemma SitUntouched(h: Hall, red: Entry, black: Entry, r: RoomInfo, ri: InGameInfo, bi: InGameInfo, q: RoomInfo)
    requires AllTables(h) && AllArmed(h) && AllSeated(h) && NewRoom(h, r, ri, bi)
    requires Present(h, red) && Present(h, black) && q in h.live && q != r
    requires h.seats[red].state == Matching && h.seats[black].state == Matching
    ensures Table(h, q) && Untouched(h, Sit(h, red, black, r, ri, bi), q)
  {
    hide AllTables, AllArmed, AllSeated;
    assert Table(h, q) by {
      assert AllTables(h);
      TableOf(h, q);
    }
    TimerOf(h, q);
    SeatOf(h, red);
    SeatOf(h, black);
  }

  lemma TableOf(h: Hall, q: RoomInfo)
    requires AllTables(h) && q in h.live
    ensures Table(h, q)
  {
  }

  lemma TimerOf(h: Hall, q: RoomInfo)
    requires AllArmed(h) && Table(h, q)
    ensures h.clocks[q].timer < h.nextTimer
  {
    assert Armed(h, h.clocks[q].timer);
  }

  /** A hall entry in no game has no game info. */
  lemma SeatOf(h: Hall, e: Entry)
    requires AllSeated(h) && Present(h, e) && !InRoom(h.seats[e].state)
    ensures h.seats[e].info == null
  {
    assert Seated(h, h.entrys[h.seats[e].connId]);
  }

  lemma SitArmed(h: Hall, red: Entry, black: Entry, r: RoomInfo, ri: InGameInfo, bi: InGameInfo)
    requires AllArmed(h) && AllSeated(h) && Present(h, red) && Present(h, black) && red != black
      && NewRoom(h, r, ri, bi)
    requires h.seats[red].state == Matching && h.seats[black].state == Matching
    ensures AllArmed(Sit(h, red, black, r, ri, bi))
  {
    var g := Sit(h, red, black, r, ri, bi);
    assert Seated(h, h.entrys[h.seats[red].connId]) && Seated(h, h.entrys[h.seats[black].connId]);
    forall t | t in g.timers
      ensures Armed(g, t)
    {
      if t != h.nextTimer {
        assert Armed(h, t);
      }
    }
  }

  lemma RearmGood(h: Hall, r: RoomInfo, e: Entry, steps: int, shown: Shown)
    requires Good(h) && r in h.live && r in h.clocks && e == h.live[r].ToMove(steps)
    ensures Good(Rearm(h, r, e, steps, shown))
  {
    hide AllTables, AllArmed;
    RearmTables(h, r, e, steps, shown);
    RearmArmed(h, r, e, steps, shown);
  }

  /** Counting the steps and arming a timer for e keeps the hall sound exactly if it is then e's turn:
      a take-back agreed by the side that is not to move breaks it. */
  lemma RearmExact(h: Hall, r: RoomInfo, e: Entry, steps: int, shown: Shown)
    requires Good(h) && r in h.live && r in h.clocks
    ensures Good(Rearm(h, r, e, steps, shown)) <==> e == h.live[r].ToMove(steps)
  {
    hide AllArmed, Indexed, AllSeated, Linked;
    if e == h.live[r].ToMove(steps) {
      RearmGood(h, r, e, steps, shown);
    } else {
      assert !Table(Rearm(h, r, e, steps, shown), r);
    }
  }

  /** Two live rooms never share a timer. */
  lemma TimersApart(h: Hall, r: RoomInfo, q: RoomInfo)
    requires AllTables(h) && AllArmed(h) && r in h.live && q in h.live && r != q
    ensures r in h.clocks && q in h.clocks && h.clocks[r].timer != h.clocks[q].timer
    ensures h.clocks[r].timer < h.nextTimer
  {
    assert Table(h, r) && Table(h, q);
    assert Armed(h, h.clocks[r].timer) && Armed(h, h.clocks[q].timer);
  }

  lemma RearmTables(h: Hall, r: RoomInfo, e: Entry, steps: int, shown: Shown)
    requires AllTables(h) && AllArmed(h) && r in h.live && r in h.clocks && e == h.live[r].ToMove(steps)
    ensures AllTables(Rearm(h, r, e, steps, shown))
  {
    hide AllArmed;
    var g := Rearm(h, r, e, steps, shown);
    assert Table(h, r);
    forall q | q in g.live
      ensures Table(g, q)
    {
      assert Table(h, q);
      if q != r {
        TimersApart(h, r, q);
        TimersApart(h, q, r);
        TableKept(h, g, q);
      }
    }
  }

  lemma RearmArmed(h: Hall, r: RoomInfo, e: Entry, steps: int, shown: Shown)
    requires AllTables(h) && AllArmed(h) && r in h.live && r in h.clocks && e == h.live[r].ToMove(steps)
    ensures AllArmed(Rearm(h, r, e, steps, shown))
  {
    var g := Rearm(h, r, e, steps, shown);
    assert Table(h, r);
    forall t | t in g.timers
      ensures Armed(g, t)
    {
      if t != h.nextTimer {
        assert Armed(h, t);
      }
    }
  }

  /** The hall while a game ends: sound but for the entries in out, whose room is no longer live. */
  ghost predicate GoodBut(h: Hall, out: set<Entry>) {
    && Indexed(h) && AllTables(h) && AllArmed(h) && EndedOnce(h)
    && (forall id :: id in h.entrys && h.entrys[id] !in out ==> Seated(h, h.entrys[id]))
    && (forall e :: e in out ==> Leaving(h, e))
  }

  ghost predicate Leaving(h: Hall, e: Entry) {
    Present(h, e) && InRoom(h.seats[e].state) && h.seats[e].info != null && h.seats[e].info.info !in h.live
  }

  ghost function Close(h: Hall, r: RoomInfo): Hall
    requires r in h.clocks
  {
    h.(timers := h.timers - {h.clocks[r].timer}, live := h.live - {r}, ended := h.ended + [r])
  }

  lemma CloseGood(h: Hall, r: RoomInfo)
    requires Good(h) && r in h.live && r in h.clocks
    ensures GoodBut(Close(h, r), {h.live[r].red, h.live[r].black})
  {
    hide AllTables, AllArmed;
    CloseSeats(h, r);
    CloseTables(h, r);
    CloseArmed(h, r);
  }

  lemma CloseSeats(h: Hall, r: RoomInfo)
    requires AllSeated(h) && AllTables(h) && r in h.live && r in h.clocks
    ensures var g := Close(h, r);
            forall id :: id in g.entrys && g.entrys[id] !in {h.live[r].red, h.live[r].black} ==> Seated(g, g.entrys[id])
    ensures var g := Close(h, r); Leaving(g, h.live[r].red) && Leaving(g, h.live[r].black)
  {
    assert Table(h, r);
    var red, black := h.live[r].red, h.live[r].black;
    assert Seated(h, h.entrys[h.seats[red].connId]) && Seated(h, h.entrys[h.seats[black].connId]);
  }

  lemma CloseTables(h: Hall, r: RoomInfo)
    requires AllTables(h) && AllArmed(h) && r in h.live && r in h.clocks
    ensures AllTables(Close(h, r))
  {
    hide AllArmed;
    var g := Close(h, r);
    forall q | q in g.live
      ensures Table(g, q)
    {
      assert Table(h, q);
      TimersApart(h, r, q);
      TableKept(h, g, q);
    }
  }

  lemma CloseArmed(h: Hall, r: RoomInfo)
    requires AllTables(h) && AllArmed(h) && r in h.live && r in h.clocks
    ensures AllArmed(Close(h, r))
  {
    var g := Close(h, r);
    assert Table(h, r);
    forall t | t in g.timers
      ensures Armed(g, t)
    {
      assert Armed(h, t);
    }
  }

  lemma DropGood(h: Hall, e: Entry, out: set<Entry>)
    requires GoodBut(h, out) && e in out && e in h.seats
    ensures GoodBut(Drop(h, e), out - {e})
  {
    hide AllTables, AllArmed, Indexed, Drop, Seated, EndedOnce;
    assert Leaving(h, e);
    DropIndexed(h, e);
    DropTables(h, e);
    DropArmed(h, e);
    DropEnded(h, e);
    DropSeats(h, e, out);
  }

  lemma DropEnded(h: Hall, e: Entry)
    requires EndedOnce(h) && e in h.seats
    ensures EndedOnce(Drop(h, e))
  {
  }

  lemma DropIndexed(h: Hall, e: Entry)
    requires Indexed(h) && Present(h, e)
    ensures Indexed(Drop(h, e))
  {
    hide Indexed;
    SeatIndexed(h, e, h.seats[e].(state := Disconnected));
    SeatIndexed(h, e, Seat(h.seats[e].connId, Online, null));
    LeaveIndexed(SetState(h, e, Disconnected), e);
  }

  lemma SeatIndexed(h: Hall, e: Entry, s: Seat)
    requires Indexed(h) && Present(h, e) && s.connId == h.seats[e].connId
    ensures Indexed(h.(seats := h.seats[e := s]))
  {
  }

  lemma DropTables(h: Hall, e: Entry)
    requires AllTables(h) && Leaving(h, e)
    ensures AllTables(Drop(h, e))
  {
    var g := Drop(h, e);
    forall r | r in g.live
      ensures Untouched(h, g, r)
    {
      assert Table(h, r);
    }
    TablesKept(h, g);
  }

  lemma DropArmed(h: Hall, e: Entry)
    requires AllArmed(h) && Leaving(h, e)
    ensures AllArmed(Drop(h, e))
  {
    var g := Drop(h, e);
    forall t | t in g.timers
      ensures Armed(g, t)
    {
      assert Armed(h, t);
    }
  }

  lemma DropSeats(h: Hall, e: Entry, out: set<Entry>)
    requires Indexed(h) && Leaving(h, e) && e in out && e in h.seats
    requires forall id :: id in h.entrys && h.entrys[id] !in out ==> Seated(h, h.entrys[id])
    requires forall x :: x in out ==> Leaving(h, x)
    ensures var g := Drop(h, e); forall id :: id in g.entrys && g.entrys[id] !in out - {e} ==> Seated(g, g.entrys[id])
    ensures var g := Drop(h, e); forall x :: x in out - {e} ==> Leaving(g, x)
  {
    hide Indexed, Drop, Leaving;
    var g := Drop(h, e);
    forall x | x in out - {e}
      ensures Leaving(g, x)
    {
      DropLeaving(h, e, x);
    }
    forall id | id in g.entrys && g.entrys[id] !in out - {e}
      ensures Seated(g, g.entrys[id])
    {
      DropSeated(h, e, id);
    }
  }

  lemma DropLeaving(h: Hall, e: Entry, x: Entry)
    requires Leaving(h, e) && Leaving(h, x) && e != x
    ensures Leaving(Drop(h, e), x)
  {
    hide Leave;
    SeatLeaving(h, e, h.seats[e].(state := Disconnected), x);
    SeatLeaving(h, e, Seat(h.seats[e].connId, Online, null), x);
    LeaveLeaving(SetState(h, e, Disconnected), e, x);
  }

  lemma SeatLeaving(h: Hall, e: Entry, s: Seat, x: Entry)
    requires Leaving(h, x) && e != x
    ensures Leaving(h.(seats := h.seats[e := s]), x)
  {
  }

  lemma LeaveLeaving(h: Hall, e: Entry, x: Entry)
    requires Leaving(h, x) && Present(h, e) && e != x
    ensures Leaving(Leave(h, e), x)
  {
  }

  lemma DropEntrys(h: Hall, e: Entry, id: int)
    requires Leaving(h, e) && id in Drop(h, e).entrys
    ensures e in h.seats && id in h.entrys && Drop(h, e).entrys[id] == h.entrys[id]
  {
    hide Leave;
    if id in Leave(SetState(h, e, Disconnected), e).entrys {
      LeaveEntrys(SetState(h, e, Disconnected), e, id);
    }
  }

  lemma LeaveEntrys(h: Hall, e: Entry, id: int)
    requires e in h.seats && id in Leave(h, e).entrys
    ensures id in h.entrys && Leave(h, e).entrys[id] == h.entrys[id]
  {
  }

  lemma DropSeated(h: Hall, e: Entry, id: int)
    requires Indexed(h) && Leaving(h, e) && id in Drop(h, e).entrys
    ensures id in h.entrys && Drop(h, e).entrys[id] == h.entrys[id]
    ensures h.entrys[id] == e || Seated(h, h.entrys[id]) ==> Seated(Drop(h, e), h.entrys[id])
  {
    hide Indexed, Seated, Drop, Leaving;
    DropEntrys(h, e, id);
    var x := h.entrys[id];
    if x != e && Seated(h, x) {
      OthersSeated(h, e, x);
    }
    if x == e {
      ReturnsToHall(h, e, id);
    }
  }

  lemma OthersSeated(h: Hall, e: Entry, x: Entry)
    requires Seated(h, x) && x != e && e in h.seats
    ensures Seated(Drop(h, e), x)
  {
    hide Seated;
    OtherSeat(h, e, h.seats[e].(state := Disconnected), x);
    OtherSeat(h, e, Seat(h.seats[e].connId, Online, null), x);
    SeatedLeave(SetState(h, e, Disconnected), e, x);
  }

  lemma OtherSeat(h: Hall, e: Entry, s: Seat, x: Entry)
    requires Seated(h, x) && x != e
    ensures Seated(h.(seats := h.seats[e := s]), x)
  {
  }

  lemma SeatedLeave(h: Hall, e: Entry, x: Entry)
    requires Seated(h, x) && e in h.seats
    ensures Seated(Leave(h, e), x)
  {
  }

  /** An entry that is still in the hall after its game is online and sits in no room. */
  lemma ReturnsToHall(h: Hall, e: Entry, id: int)
    requires Indexed(h) && Leaving(h, e) && id in Drop(h, e).entrys && id in h.entrys && h.entrys[id] == e
    ensures Seated(Drop(h, e), e)
  {
  }

  lemma OverGood(h: Hall, r: RoomInfo, e: Entry, opp: Entry)
    requires Good(h) && r in h.live && r in h.clocks && e != opp && e in h.seats && opp in h.seats
    requires h.live[r].Has(e) && h.live[r].Has(opp)
    ensures Good(Over(h, r, e, opp))
  {
    hide AllTables, AllArmed, Indexed, Drop, Close;
    CloseGood(h, r);
    CloseIs(h, r);
    DropGood(Close(h, r), e, {e, opp});
    assert {e, opp} - {e} == {opp};
    DropGood(Drop(Close(h, r), e), opp, {opp});
    assert {opp} - {opp} == {};
  }

  lemma CloseIs(h: Hall, r: RoomInfo)
    requires r in h.clocks
    ensures Close(h, r) == h.(timers := h.timers - {h.clocks[r].timer}, live := h.live - {r}, ended := h.ended + [r])
  {
  }

  lemma ReturnGood(h: Hall, e: Entry, id: int)
    requires Good(h) && Present(h, e) && h.seats[e].state == DisconnectedInPlaying && id >= 0 && id !in h.entrys
    ensures h.seats[e].info != null && h.seats[e].info in h.links
    ensures Good(Return(h, e, id))
  {
    hide AllTables, AllArmed;
    OpponentOf(h, e);
    assert Seated(h, h.entrys[h.seats[e].connId]);
    ReturnArmed(h, e, id);
    ReturnTables(h, e, id);
  }

  lemma ReturnArmed(h: Hall, e: Entry, id: int)
    requires AllArmed(h) && Present(h, e) && h.seats[e].info != null && h.seats[e].info in h.links
    ensures AllArmed(Return(h, e, id))
  {
  }

  lemma ReturnTables(h: Hall, e: Entry, id: int)
    requires AllTables(h) && Present(h, e) && h.seats[e].info != null && h.seats[e].info in h.links && id !in h.entrys
    requires Seated(h, e)
    ensures AllTables(Return(h, e, id))
  {
    var g := Return(h, e, id);
    var home := h.seats[e].info.info;
    assert Table(h, home);
    forall r | r in g.live
      ensures Table(g, r)
    {
      assert Table(h, r);
      if r != home {
        TableKept(h, g, r);
      }
    }
  }

  // ---- What the guards keep out ----

  /** std::map::insert: a key that is already there keeps its value. */
  ghost function Insert<K, V>(m: map<K, V>, k: K, v: V): map<K, V> {
    if k in m then m else m[k := v]
  }

  /** intoHall as it is, for a new user. */
  ghost function EnterAny(h: Hall, e: Entry, id: int): Hall {
    h.(entrys := Insert(h.entrys, id, e), userList := Insert(h.userList, e.name, id),
       seats := h.seats[e := Seat(id, Online, null)])
  }

  /** A login of a new user keeps the hall sound exactly if its connection is not yet in the hall. */
  lemma EnterExact(h: Hall, e: Entry, id: int)
    requires Good(h) && e !in h.seats && id >= 0 && e.name !in h.userList
    ensures Good(EnterAny(h, e, id)) <==> id !in h.entrys
  {
    hide AllTables, AllSeated, AllArmed, EndedOnce;
    if id !in h.entrys {
      EnterGood(h, e, id);
      assert EnterAny(h, e, id) == Enter(h, e, id);
    } else {
      assert h.entrys[id].name in h.userList;
      assert EnterAny(h, e, id).userList[e.name] == id;
    }
  }

  /** onReconnected as it is. */
  ghost function ReturnAny(h: Hall, e: Entry, id: int): Hall
    requires e in h.seats && h.seats[e].info != null && h.seats[e].info in h.links
  {
    var out := Leave(h, e);
    out.(entrys := Insert(out.entrys, id, e), userList := Insert(out.userList, e.name, id),
         seats := h.seats[e := Seat(id, Playing, h.seats[e].info)],
         links := h.links[h.seats[e].info := Link(id, h.links[h.seats[e].info].opp)])
  }

  /** A player comes back soundly exactly if the new connection is not that of another entry. */
  lemma ReturnExact(h: Hall, e: Entry, id: int)
    requires Good(h) && Present(h, e) && h.seats[e].state == DisconnectedInPlaying && id >= 0 && id != h.seats[e].connId
    ensures h.seats[e].info != null && h.seats[e].info in h.links
    ensures Good(ReturnAny(h, e, id)) <==> id !in h.entrys
  {
    hide AllTables, AllSeated, AllArmed, EndedOnce;
    OpponentOf(h, e);
    if id !in h.entrys {
      ReturnGood(h, e, id);
      assert ReturnAny(h, e, id) == Return(h, e, id);
    } else {
      assert h.entrys[id].name != e.name;
      assert ReturnAny(h, e, id).userList[e.name] == id && ReturnAny(h, e, id).entrys[id] == h.entrys[id];
    }
  }

  ghost function EmptyHall(): Hall { Hall(map[], map[], map[], 0, map[], map[], map[], map[], []) }

  /** Two users log in, ask for a match, and are paired. */
  ghost function Opened(red: Entry, a: int, black: Entry, b: int, r: RoomInfo, ri: InGameInfo, bi: InGameInfo): Hall {
    var hall := Enter(Enter(EmptyHall(), red, a), black, b);
    Sit(SetState(SetState(hall, red, Matching), black, Matching), red, black, r, ri, bi)
  }

  lemma OpenedGood(red: Entry, a: int, black: Entry, b: int, r: RoomInfo, ri: InGameInfo, bi: InGameInfo)
    requires a >= 0 && b >= 0 && a != b && red.name != black.name
    requires ri != bi && ri.info == r && bi.info == r && ri.red && !bi.red
    ensures var h := Opened(red, a, black, b, r, ri, bi);
            && Good(h) && Present(h, red) && Present(h, black) && h.seats[red].state == Playing
            && r in h.live && r in h.clocks && h.live[r] == Players(red, black) && h.clocks[r].steps == 0
            && h.seats[red].connId == a && b in h.entrys
  {
    hide Good, Sit;
    EmptyGood(EmptyHall());
    EnterGood(EmptyHall(), red, a);
    var h := Enter(EmptyHall(), red, a);
    EnterGood(h, black, b);
    h := Enter(h, black, b);
    SetStateGood(h, red, Matching);
    h := SetState(h, red, Matching);
    SetStateGood(h, black, Matching);
    h := SetState(h, black, Matching);
    SitGood(h, red, black, r, ri, bi);
    SitShape(h, red, black, r, ri, bi);
  }

  lemma SitShape(h: Hall, red: Entry, black: Entry, r: RoomInfo, ri: InGameInfo, bi: InGameInfo)
    requires red != black && Present(h, red) && Present(h, black)
    ensures var g := Sit(h, red, black, r, ri, bi);
            && Present(g, red) && Present(g, black) && g.seats[red].state == Playing
            && r in g.live && r in g.clocks && g.live[r] == Players(red, black) && g.clocks[r].steps == 0
            && g.seats[red].connId == h.seats[red].connId && g.entrys == h.entrys
  {
  }

  /** A login that leaves the protocol: one connection logs in under a second user name. */
  lemma SecondNameBreaks(x: Entry, y: Entry, id: int)
    requires id >= 0 && x.name != y.name
    ensures Good(Enter(EmptyHall(), x, id)) && !Good(EnterAny(Enter(EmptyHall(), x, id), y, id))
  {
    hide Good;
    EmptyGood(EmptyHall());
    EnterGood(EmptyHall(), x, id);
    EnterExact(Enter(EmptyHall(), x, id), y, id);
  }

  /** Another: Red, disconnected in its game, comes back on the connection of Black. */
  lemma ReturnOverBreaks(red: Entry, a: int, black: Entry, b: int, r: RoomInfo, ri: InGameInfo, bi: InGameInfo)
    requires a >= 0 && b >= 0 && a != b && red.name != black.name
    requires ri != bi && ri.info == r && bi.info == r && ri.red && !bi.red
    ensures red in Opened(red, a, black, b, r, ri, bi).seats
    ensures var h := SetState(Opened(red, a, black, b, r, ri, bi), red, DisconnectedInPlaying);
            && Good(h) && red in h.seats && h.seats[red].info != null && h.seats[red].info in h.links
            && !Good(ReturnAny(h, red, b))
  {
    hide Good, Opened;
    OpenedGood(red, a, black, b, r, ri, bi);
    var h := Opened(red, a, black, b, r, ri, bi);
    SetStateGood(h, red, DisconnectedInPlaying);
    ReturnExact(SetState(h, red, DisconnectedInPlaying), red, b);
  }

  /** A run that leaves the protocol: two logins, two match requests, a pairing, Red disconnects, and
      a second disconnection of the same connection takes it out of the hall. */
  lemma SecondDisconnectBreaks(red: Entry, a: int, black: Entry, b: int, r: RoomInfo, ri: InGameInfo, bi: InGameInfo)
    requires a >= 0 && b >= 0 && a != b && red.name != black.name
    requires ri != bi && ri.info == r && bi.info == r && ri.red && !bi.red
    ensures red in Opened(red, a, black, b, r, ri, bi).seats
    ensures var h := SetState(Opened(red, a, black, b, r, ri, bi), red, DisconnectedInPlaying);
            Good(h) && Present(h, red) && !Good(Leave(h, red))
  {
    hide Good, Opened;
    OpenedGood(red, a, black, b, r, ri, bi);
    var h := Opened(red, a, black, b, r, ri, bi);
    SetStateGood(h, red, DisconnectedInPlaying);
    LeaveExact(SetState(h, red, DisconnectedInPlaying), red);
  }

  /** Another: after Red's first move Red itself agrees to take a step back, and Black's timer is armed
      although it is Red's turn again. */
  lemma WrongTakeBackBreaks(red: Entry, a: int, black: Entry, b: int, r: RoomInfo, ri: InGameInfo, bi: InGameInfo)
    requires a >= 0 && b >= 0 && a != b && red.name != black.name
    requires ri != bi && ri.info == r && bi.info == r && ri.red && !bi.red
    ensures r in Opened(red, a, black, b, r, ri, bi).clocks
    ensures var h := Rearm(Opened(red, a, black, b, r, ri, bi), r, black, 1, Shown("", 0));
            Good(h) && h.live[r].ToMove(1) == black && !Good(Rearm(h, r, black, 0, Shown("", -1)))
  {
    hide Good, Opened;
    OpenedGood(red, a, black, b, r, ri, bi);
    var h := Opened(red, a, black, b, r, ri, bi);
    RearmExact(h, r, black, 1, Shown("", 0));
    RearmExact(Rearm(h, r, black, 1, Shown("", 0)), r, black, 0, Shown("", -1));
  }

  /** The user is in the hall and waits for a match. */
  ghost predicate IsMatching(h: Hall, name: string) {
    && name in h.userList && h.userList[name] in h.entrys && h.entrys[h.userList[name]] in h.seats
    && h.seats[h.entrys[h.userList[name]]].state == Matching
  }

  /** g is h after red and black sat down in a new room and Red's timer was armed. */
  ghost predicate SatDown(h: Hall, g: Hall, red: Entry?, black: Entry?, quick: bool) {
    red != null && black != null && red in h.seats && black in h.seats
    && exists r, ri, bi :: r in g.clocks && ri in g.links && bi in g.links && NewRoom(h, r, ri, bi)
                           && r.quick == quick
                           && g == Sit(h, red, black, r, ri, bi)
  }

  lemma SatDownIs(h: Hall, red: Entry, black: Entry, r: RoomInfo, ri: InGameInfo, bi: InGameInfo)
    requires red in h.seats && black in h.seats && NewRoom(h, r, ri, bi)
    ensures SatDown(h, Sit(h, red, black, r, ri, bi), red, black, r.quick)
  {
  }

  /** The opponent of e in its live room. */
  ghost function Opponent(h: Hall, e: Entry): Entry
    requires e in h.seats && h.seats[e].info != null && h.seats[e].info.info in h.live
  {
    var p := h.live[h.seats[e].info.info];
    if e == p.red then p.black else p.red
  }

  /** The hall after the game of e is over. */
  ghost function AfterGame(h: Hall, e: Entry): Hall {
    if e in h.seats && h.seats[e].info != null && h.seats[e].info.info in h.live && h.seats[e].info.info in h.clocks
       && Opponent(h, e) in h.seats
    then Over(h, h.seats[e].info.info, e, Opponent(h, e)) else h
  }

  /** The scores after the game of e, which changed its score by c and its opponent's by -c. */
  ghost function AfterScores(h: Hall, s: map<Entry, int>, e: Entry, c: int): map<Entry, int> {
    if e in h.seats && h.seats[e].info != null && h.seats[e].info.info in h.live
    then Paid(s, e, Opponent(h, e), c) else s
  }

  lemma ResultPaid(h: Hall, s: map<Entry, int>, e: Entry, opp: Entry, c: int)
    requires e in h.seats && h.seats[e].info != null && h.seats[e].info.info in h.live && e != opp
    requires h.live[h.seats[e].info.info].Has(e) && h.live[h.seats[e].info.info].Has(opp)
    ensures AfterScores(h, s, e, c) == Paid(s, e, opp, c)
  {
  }

  ghost function Paid(s: map<Entry, int>, e: Entry, opp: Entry, c: int): map<Entry, int> {
    if e in s && opp in s then s[e := s[e] + c][opp := s[opp] - c] else s
  }

  /** Every score is the one of the login plus the logged changes of that entry, every game that ended
      left two changes, and all changes together add up to zero. */
  ghost predicate Balanced(roll: seq<Entry>, base: map<Entry, int>, log: seq<Change>, scores: map<Entry, int>,
      games: nat) {
    && NoTwice(roll) && (forall e :: e in roll ==> e in scores) && (forall e :: e in scores ==> e in roll)
    && (forall e :: e in base ==> e in scores)
    && (forall e :: e in scores ==> e in base && scores[e] == base[e] + NetOf(log, e))
    && (forall c :: c in log ==> c.entry in scores) && Net(log) == 0 && |log| == 2 * games
  }

  /** The games a user played, won and lost. */
  datatype Counts = Counts(total: int, nwin: int, nloss: int)

  function Sign(x: int): int { if x > 0 then 1 else if x < 0 then -1 else 0 }

  /** How many of the changes of one entry have the given sign. */
  ghost function Times(log: seq<Change>, e: Entry, sign: int): nat {
    if log == [] then 0
    else
      var c := log[|log| - 1];
      Times(log[..|log| - 1], e, sign) + if c.entry == e && Sign(c.amount) == sign then 1 else 0
  }

  /** Every entry has won and lost as often since its login as points were given to it and taken from it, and
      played as often as there are changes of it. */
  ghost predicate Counted(first: map<Entry, Counts>, log: seq<Change>, counts: map<Entry, Counts>) {
    forall e :: e in counts ==>
      && e in first
      && counts[e].nwin == first[e].nwin + Times(log, e, 1) && counts[e].nloss == first[e].nloss + Times(log, e, -1)
      && counts[e].total == first[e].total + Times(log, e, 1) + Times(log, e, -1) + Times(log, e, 0)
  }

  /** The counts after one more change. */
  ghost function Credited(c: Counts, amount: int): Counts {
    Counts(c.total + 1, c.nwin + (if amount > 0 then 1 else 0), c.nloss + (if amount < 0 then 1 else 0))
  }

  /** The counts after the game of two entries. */
  ghost function Recounted(counts: map<Entry, Counts>, e: Entry, opp: Entry, c: int): map<Entry, Counts> {
    if e in counts && opp in counts then counts[e := Credited(counts[e], c)][opp := Credited(counts[opp], -c)]
    else counts
  }

  lemma GameCounted(first: map<Entry, Counts>, log: seq<Change>, counts: map<Entry, Counts>, e: Entry, opp: Entry,
                    c: int)
    requires Counted(first, log, counts) && e in counts && opp in counts && e != opp
    ensures Counted(first, log + [Change(e, c)] + [Change(opp, -c)], Recounted(counts, e, opp, c))
  {
    hide Counted, Credited;
    OneMoreCounted(first, log, counts, Change(e, c));
    OneMoreCounted(first, log + [Change(e, c)], counts[e := Credited(counts[e], c)], Change(opp, -c));
  }

  lemma OneMoreCounted(first: map<Entry, Counts>, log: seq<Change>, counts: map<Entry, Counts>, c: Change)
    requires Counted(first, log, counts) && c.entry in counts
    ensures Counted(first, log + [c], counts[c.entry := Credited(counts[c.entry], c.amount)])
  {
    assert (log + [c])[..|log|] == log;
  }

  lemma {:induction false} NeverCounted(log: seq<Change>, e: Entry, sign: int)
    requires forall c :: c in log ==> c.entry != e
    ensures Times(log, e, sign) == 0
  {
    if log != [] {
      NeverCounted(log[..|log| - 1], e, sign);
    }
  }

  lemma ChangesOfEntered(roll: seq<Entry>, base: map<Entry, int>, log: seq<Change>, scores: map<Entry, int>, games: nat)
    requires Balanced(roll, base, log, scores, games)
    ensures forall c :: c in log ==> c.entry in scores
  {
  }

  lemma EnterCounted(first: map<Entry, Counts>, log: seq<Change>, counts: map<Entry, Counts>, e: Entry, c: Counts)
    requires Counted(first, log, counts) && e !in counts && forall x :: x in log ==> x.entry != e
    ensures Counted(first[e := c], log, counts[e := c])
  {
    hide Times;
    NeverCounted(log, e, 1);
    NeverCounted(log, e, -1);
    NeverCounted(log, e, 0);
  }

  lemma EmptyBalanced(scores: map<Entry, int>)
    requires forall e :: e !in scores
    ensures Balanced([], map[], [], scores, 0)
  {
  }

  /** The points of all entries are the points brought in at the logins. */
  lemma NoPointsMade(roll: seq<Entry>, base: map<Entry, int>, log: seq<Change>, scores: map<Entry, int>, games: nat)
    requires Balanced(roll, base, log, scores, games)
    ensures (forall e :: e in roll ==> e in scores && e in base) && SumOver(roll, scores) == SumOver(roll, base)
  {
    SumOfNets(roll, scores.Keys, log);
    SumPlus(roll, base, Nets(scores.Keys, log), scores);
  }

  lemma {:induction false} NoChanges(log: seq<Change>, e: Entry)
    requires forall c :: c in log ==> c.entry != e
    ensures NetOf(log, e) == 0
  {
    if log != [] {
      NoChanges(log[..|log| - 1], e);
    }
  }

  lemma EnterBalanced(roll: seq<Entry>, base: map<Entry, int>, log: seq<Change>, scores: map<Entry, int>, games: nat,
                      e: Entry, score: int)
    requires Balanced(roll, base, log, scores, games) && e !in scores
    ensures Balanced(roll + [e], base[e := score], log, scores[e := score], games)
  {
    NoChanges(log, e);
  }

  /** Two opposite changes of two entries when a game ends. */
  lemma PaidBalanced(roll: seq<Entry>, base: map<Entry, int>, log: seq<Change>, scores: map<Entry, int>, games: nat,
                     e: Entry, opp: Entry, c: int)
    requires Balanced(roll, base, log, scores, games) && e in scores && opp in scores && e != opp
    ensures Balanced(roll, base, log + [Change(e, c)] + [Change(opp, -c)], Paid(scores, e, opp, c), games + 1)
  {
    hide Net, NetOf, NoTwice;
    NetAppend(log, Change(e, c));
    NetAppend(log + [Change(e, c)], Change(opp, -c));
    ChangesKnown(log, scores, e, opp, c);
  }

  lemma ChangesKnown(log: seq<Change>, scores: map<Entry, int>, e: Entry, opp: Entry, c: int)
    requires e in scores && opp in scores && forall x :: x in log ==> x.entry in scores
    ensures forall x :: x in log + [Change(e, c)] + [Change(opp, -c)] ==> x.entry in Paid(scores, e, opp, c)
  {
  }

  datatype Outcome = NoResult | Result(cause: Entry, change: int)

  /** e plays and it is its turn. */
  ghost predicate Turn(h: Hall, e: Entry) {
    && e in h.seats && h.seats[e].state == Playing && h.seats[e].info != null && h.seats[e].info.info in h.clocks
    && (h.seats[e].info.red <==> h.clocks[h.seats[e].info.info].steps % 2 == 0)
  }

  ghost predicate Plays(h: Hall, id: int) {
    id in h.entrys && h.entrys[id] in h.seats && h.seats[h.entrys[id]].state == Playing
  }

  /** The game an event ends, and what it changes the score of its cause by. */
  ghost function ResultOf(h: Hall, event: Event): Outcome {
    match event
    case Moved(id, over, fen, mv) => if over && Plays(h, id)
        && Turn(h, h.entrys[id]) then Result(h.entrys[id], 10) else NoResult
    case GaveUp(id) => if Plays(h, id) then Result(h.entrys[id], -10) else NoResult
    case DrawAnswered(id, agree) => if agree && Plays(h, id) then Result(h.entrys[id], 0) else NoResult
    case TimedOut(t) => if t in h.timers then Result(h.timers[t], -10) else NoResult
    case _ => NoResult
  }

  /** The scores after an event: only a result changes any, and then those of the two players. */
  ghost function ScoresAfter(h: Hall, s: map<Entry, int>, event: Event): map<Entry, int> {
    match ResultOf(h, event)
    case NoResult => s
    case Result(e, c) => AfterScores(h, s, e, c)
  }

  /** The hall after e moved n steps on and its opponent's timer was armed. */
  ghost function AfterStep(h: Hall, e: Entry, n: int, shown: Shown): Hall {
    if e in h.seats && h.seats[e].info != null && h.seats[e].info.info in h.live && h.seats[e].info.info in h.clocks
    then Rearm(h, h.seats[e].info.info, Opponent(h, e), h.clocks[h.seats[e].info.info].steps + n, shown)
    else h
  }

  ghost function AfterMove(h: Hall, e: Entry, over: bool, shown: Shown): Hall {
    if over then AfterGame(h, e) else AfterStep(h, e, 1, shown)
  }

  /** g is h with e back under connection id. */
  ghost predicate Returned(h: Hall, g: Hall, e: Entry, id: int) {
    e in h.seats && h.seats[e].info != null && h.seats[e].info in h.links && g == Return(h, e, id)
  }

  // ---- The protocol ----

  /** The entry of a connection is in the given state. */
  ghost predicate InState(h: Hall, id: int, state: State) {
    id in h.entrys && h.entrys[id] in h.seats && h.seats[h.entrys[id]].state == state
  }

  ghost function Named(h: Hall, name: string): Entry? {
    if name in h.userList && h.userList[name] in h.entrys then h.entrys[h.userList[name]] else null
  }

  /** g is h after a login: a new user enters, a player who was disconnected in a game comes back under the
      new connection, and any other user who is here already changes nothing. */
  ghost predicate LogsIn(h: Hall, g: Hall, id: int, name: string) {
    if name !in h.userList then exists e :: e in g.seats && e !in h.seats && e.name == name && g == Enter(h, e, id)
    else if h.userList[name] != id && InState(h, h.userList[name], DisconnectedInPlaying)
    then Returned(h, g, h.entrys[h.userList[name]], id)
    else g == h
  }

  lemma ReturnPresent(h: Hall, e: Entry, id: int)
    requires e in h.seats && h.seats[e].info != null && h.seats[e].info in h.links
    ensures Present(Return(h, e, id), e)
  {
  }

  lemma EnteredIs(h: Hall, e: Entry, id: int)
    requires e !in h.seats && e.name !in h.userList
    ensures LogsIn(h, Enter(h, e, id), id, e.name)
  {
  }

  /** g is h after the event. */
  ghost predicate Follows(h: Hall, g: Hall, event: Event) {
    match event
    case LoggedIn(id, user) => LogsIn(h, g, id, user.name)
    case MatchAsked(id) => g == if InState(h, id, Online) then SetState(h, h.entrys[id], Matching) else h
    case CancelAsked(id) => g == if InState(h, id, Matching) then SetState(h, h.entrys[id], Online) else h
    case Paired(redName, blackName, quick) =>
      if IsMatching(h, redName) && IsMatching(h, blackName)
      then SatDown(h, g, Named(h, redName), Named(h, blackName), quick) else g == h
    case Moved(id, over, fen, mv) =>
      g == if Plays(h, id) && Turn(h, h.entrys[id]) then AfterMove(h, h.entrys[id], over, Shown(fen, mv)) else h
    case GaveUp(id) => g == if Plays(h, id) then AfterGame(h, h.entrys[id]) else h
    case TakeBackAnswered(id, agree, fen, mv) =>
      g == if agree && Plays(h, id) then AfterStep(h, h.entrys[id], -1, Shown(fen, mv)) else h
    case DrawAnswered(id, agree) => g == if agree && Plays(h, id) then AfterGame(h, h.entrys[id]) else h
    case WentAway(id) =>
      g == if Plays(h, id) then SetState(h, h.entrys[id], DisconnectedInPlaying)
           else if id in h.entrys && h.entrys[id] in h.seats then Leave(h, h.entrys[id])
           else h
    case TimedOut(t) => g == if t in h.timers then AfterGame(h, h.timers[t]) else h
  }

  /** The events the protocol allows in h: what the handlers themselves do not guard against. */
  ghost predicate Permitted(h: Hall, event: Event) {
    match event
    case LoggedIn(id, user) =>
      id in h.entrys ==>
        && user.name in h.userList && h.userList[user.name] in h.entrys
        && (h.userList[user.name] == id || !InState(h, h.userList[user.name], DisconnectedInPlaying))
    case MatchAsked(id) => id in h.entrys
    case CancelAsked(id) => true
    case Paired(redName, blackName, quick) => redName != blackName
    case Moved(id, over, fen, mv) => id in h.entrys
    case GaveUp(id) => id in h.entrys
    case TakeBackAnswered(id, agree, fen, mv) => Plays(h, id) && (agree ==> Turn(h, h.entrys[id]))
    case DrawAnswered(id, agree) => Plays(h, id)
    case WentAway(id) => !InState(h, id, DisconnectedInPlaying)
    case TimedOut(t) => t in h.timers
  }

  /** halls are the states of a run of events, in which those not permitted when they arrive do not happen. */
  ghost predicate Trace(halls: seq<Hall>, events: seq<Event>) {
    && |halls| == |events| + 1
    && forall i :: 0 <= i < |events| ==>
         if Permitted(halls[i], events[i]) then Follows(halls[i], halls[i + 1], events[i]) else halls[i + 1] == halls[i]
  }

  lemma TraceGrows(halls: seq<Hall>, events: seq<Event>, g: Hall, event: Event)
    requires Trace(halls, events)
    requires if Permitted(halls[|events|], event) then Follows(halls[|events|], g, event) else g == halls[|events|]
    ensures Trace(halls + [g], events + [event])
  {
    hide Permitted, Follows;
  }

  /** A pairing of two users who both wait starts their game: a new room is live, both play in it with the
      colours they were paired with, and Red's timer runs. */
  lemma PairedPlay(h: Hall, g: Hall, redName: string, blackName: string, quick: bool) returns (r: RoomInfo)
    requires Good(h) && redName != blackName && Follows(h, g, Paired(redName, blackName, quick))
    requires IsMatching(h, redName) && IsMatching(h, blackName)
    ensures r !in h.live && r in g.live && r in g.clocks && r.quick == quick
    ensures g.live[r].red.name == redName && g.live[r].black.name == blackName
    ensures Plays(g, h.userList[redName]) && Plays(g, h.userList[blackName])
    ensures g.timers == h.timers[g.clocks[r].timer := g.live[r].red] && g.clocks[r].timer !in h.timers
  {
    hide Good, Sit, NewRoom, Present;
    var red, black := Named(h, redName), Named(h, blackName);
    NamedPresent(h, redName);
    NamedPresent(h, blackName);
    var r', ri, bi :| r' in g.clocks && ri in g.links && bi in g.links && NewRoom(h, r', ri, bi)
      && r'.quick == quick && g == Sit(h, red, black, r', ri, bi);
    r := r';
    SitShape(h, red, black, r, ri, bi);
    SitNew(h, red, black, r, ri, bi);
    SitPlays(h, red, black, r, ri, bi);
  }

  lemma NamedPresent(h: Hall, name: string)
    requires Good(h) && IsMatching(h, name)
    ensures Named(h, name) != null && Present(h, Named(h, name)) && Named(h, name).name == name
    ensures h.seats[Named(h, name)].connId == h.userList[name]
  {
    hide AllSeated, AllTables, AllArmed, EndedOnce;
    var id := h.userList[name];
    assert id in h.entrys && h.seats[h.entrys[id]].connId == id;
  }

  lemma SitNew(h: Hall, red: Entry, black: Entry, r: RoomInfo, ri: InGameInfo, bi: InGameInfo)
    requires Good(h) && Present(h, red) && Present(h, black) && NewRoom(h, r, ri, bi)
    ensures r !in h.live && h.nextTimer !in h.timers
    ensures var g := Sit(h, red, black, r, ri, bi);
            r in g.clocks && g.clocks[r].timer == h.nextTimer && g.timers == h.timers[h.nextTimer := red]
  {
    hide AllSeated, Indexed, EndedOnce, Sit;
    if r in h.live {
      LiveHasClock(h, r);
    }
    SitTimer(h, red, black, r, ri, bi);
  }

  lemma SitTimer(h: Hall, red: Entry, black: Entry, r: RoomInfo, ri: InGameInfo, bi: InGameInfo)
    requires red in h.seats && black in h.seats
    ensures var g := Sit(h, red, black, r, ri, bi);
            r in g.clocks && g.clocks[r].timer == h.nextTimer && g.timers == h.timers[h.nextTimer := red]
  {
  }

  lemma SitPlays(h: Hall, red: Entry, black: Entry, r: RoomInfo, ri: InGameInfo, bi: InGameInfo)
    requires red != black && Present(h, red) && Present(h, black)
    ensures var g := Sit(h, red, black, r, ri, bi);
            Plays(g, h.seats[red].connId) && Plays(g, h.seats[black].connId)
  {
  }
}
