/** The center server: its maps, its timers and its message handlers, each proved to make one step
    of the session protocol (center_server.cc). */
module Center {
  import opened Session

  function ClockOf(r: RoomInfo): Clock
    reads r`timer, r`totalSteps, r`fen, r`lastMoveStep
  {
    Clock(r.timer, r.totalSteps, Shown(r.fen, r.lastMoveStep))
  }

  /** No move was made in the room yet. */
  predicate Unplayed(r: RoomInfo)
    reads r
  {
    r.totalSteps == 0 && r.fen == "" && r.lastMoveStep == -1
  }

  class CenterServer {
    var entrys: map<int, Entry>
    var userList: map<string, int>
    var timers: map<nat, Entry>
    var nextTimer: nat
    ghost var entries: set<Entry>
    ghost var infos: set<InGameInfo>
    ghost var rooms: set<RoomInfo>
    ghost var live: map<RoomInfo, Players>
    ghost var ended: seq<RoomInfo>
    ghost var roll: seq<Entry>        // the entries in the order of their logins
    ghost var base: map<Entry, int>   // the scores they logged in with
    ghost var log: seq<Change>        // the score changes since
    ghost var first: map<Entry, Counts> // the games they had played when they logged in

    constructor ()
      ensures Valid() && entrys == map[] && userList == map[] && timers == map[] && live == map[] && ended == []
      ensures entries == {} && infos == {} && rooms == {} && roll == []
    {
      hide Good, Seats, Links, Clocks, Balanced, Scores, Tallied;
      entrys, userList, timers, nextTimer := map[], map[], map[], 0;
      entries, infos, rooms, live, ended := {}, {}, {}, map[], [];
      roll, base, log, first := [], map[], [], map[];
      new;
      EmptyGood(Now());
      NobodyScored();
    }

    lemma NobodyScored()
      requires entries == {} && roll == [] && base == map[] && log == [] && ended == []
      ensures Books()
    {
      hide Scores, Tallied;
      Domains();
      EmptyBalanced(Scores());
    }

    ghost function Now(): Hall
      reads this, entries, infos, rooms
    {
      Hall(entrys, userList, timers, nextTimer, Seats(), Links(), Clocks(), live, ended)
    }

    ghost function Seats(): map<Entry, Seat>
      reads this`entries, entries`connId, entries`state, entries`gameInfo
    {
      map e | e in entries :: Seat(e.connId, e.state, e.gameInfo)
    }

    ghost function Links(): map<InGameInfo, Link>
      reads this`infos, infos`connId, infos`oppPlayer
    {
      map i | i in infos :: Link(i.connId, i.oppPlayer)
    }

    ghost function Clocks(): map<RoomInfo, Clock>
      reads this`rooms, rooms`timer, rooms`totalSteps, rooms`fen, rooms`lastMoveStep
    {
      map r | r in rooms :: ClockOf(r)
    }

    ghost function Scores(): map<Entry, int>
      reads this`entries, entries`score
    {
      map e | e in entries :: e.score
    }

    ghost function Tallied(): map<Entry, Counts>
      reads this`entries, entries`total, entries`nwin, entries`nloss
    {
      map e | e in entries :: Counts(e.total, e.nwin, e.nloss)
    }

    lemma Domains()
      ensures Seats().Keys == entries && Links().Keys == infos && Clocks().Keys == rooms && Scores().Keys == entries
      ensures Now().seats.Keys == entries && Tallied().Keys == entries
    {
    }

    lemma SeatAt(e: Entry)
      requires e in entries
      ensures Seats().Keys == entries && Seats()[e] == Seat(e.connId, e.state, e.gameInfo)
    {
    }

    lemma ClockAt(r: RoomInfo)
      requires r in rooms
      ensures Clocks().Keys == rooms && Clocks()[r] == ClockOf(r)
    {
    }

    /** The scores and the games are accounted for. */
    ghost predicate Books()
      reads this`entries, entries`score, entries`total, entries`nwin, entries`nloss
      reads this`roll, this`base, this`log, this`first, this`ended
    {
      Balanced(roll, base, log, Scores(), |ended|) && Counted(first, log, Tallied())
    }

    /** The invariant of the protocol. */
    ghost predicate Valid()
      reads this, entries, infos, rooms
    {
      Good(Now()) && Books()
    }

    function FindByConnId(id: int): Entry?
      reads this`entrys
    {
      if id in entrys then entrys[id] else null
    }

    function FindByUsername(name: string): Entry?
      reads this`entrys, this`userList
    {
      FindByConnId(if name in userList then userList[name] else -1)
    }

    /** isTurnToPlay. */
    predicate IsTurn(e: Entry)
      requires e.gameInfo != null
      reads e, e.gameInfo, e.gameInfo.info
    {
      var redTurn := e.gameInfo.info.totalSteps % 2 == 0;
      (e.gameInfo.red && redTurn) || (!e.gameInfo.red && !redTurn)
    }

    /** What the invariant says about the objects behind a hall entry. */
    lemma HallEntry(id: int)
      requires Valid() && id in entrys
      ensures entrys[id] in entries && entrys[id].connId == id && Present(Now(), entrys[id])
      ensures entrys[id].state != Disconnected && (InRoom(entrys[id].state) <==> entrys[id].gameInfo != null)
    {
      OpponentOf(Now(), entrys[id]);
    }

    /** ... and about the room it sits in. */
    lemma RoomEntry(e: Entry)
      requires Valid() && e in entries && Present(Now(), e) && e.gameInfo != null
      ensures e.gameInfo in infos && e.gameInfo.info in rooms && e.gameInfo.info in live
      ensures e.gameInfo.oppPlayer != null && e.gameInfo.oppPlayer in infos && e.gameInfo.oppPlayer.connId in entrys
      ensures var opp := entrys[e.gameInfo.oppPlayer.connId];
              && opp != e && opp in entries && Present(Now(), opp) && opp.gameInfo == e.gameInfo.oppPlayer
              && InRoom(opp.state) && opp.gameInfo.info == e.gameInfo.info
              && live[e.gameInfo.info] == (if e.gameInfo.red then Players(e, opp) else Players(opp, e))
      ensures IsTurn(e) <==> live[e.gameInfo.info].ToMove(e.gameInfo.info.totalSteps) == e
    {
      OpponentOf(Now(), e);
      assert Table(Now(), e.gameInfo.info);
    }

    /** findOppEntryByEntry. */
    method FindOpp(e: Entry) returns (opp: Entry)
      requires Valid() && e in entries && Present(Now(), e) && e.gameInfo != null
      ensures opp != e && opp in entries && Present(Now(), opp) && opp.gameInfo == e.gameInfo.oppPlayer
      ensures e.gameInfo.info in live && live[e.gameInfo.info].Has(e) && live[e.gameInfo.info].Has(opp)
    {
      RoomEntry(e);
      opp := entrys[e.gameInfo.oppPlayer.connId];
    }

    /** intoHall for a user who logs in. */
    method IntoHall(id: nat, user: UserInfo) returns (entry: Entry)
      requires Valid() && id !in entrys && user.name !in userList
      modifies this`entrys, this`userList, this`entries, this`roll, this`base, this`first
      ensures Valid() && fresh(entry)
      ensures roll == old(roll) + [entry] && base == old(base)[entry := user.score]
      ensures first == old(first)[entry := Counts(user.total, user.nwin, user.nloss)]
      ensures Scores() == old(Scores())[entry := user.score]
      ensures UserInfo(entry.name, entry.score, entry.total, entry.nwin, entry.nloss) == user
      ensures id in entrys && entrys[id] == entry && ended == old(ended)
      ensures Now() == Enter(old(Now()), entry, id)
      ensures entries == old(entries) + {entry} && infos == old(infos) && rooms == old(rooms)
    {
      hide Good, Enter, Balanced, Counted, Scores, Tallied, Seats, Links, Clocks;
      Domains();
      ChangesOfEntered(roll, base, log, Scores(), |ended|);
      entry := new Entry(id, user);
      EnterGood(Now(), entry, id);
      EnterBalanced(roll, base, log, Scores(), |ended|, entry, user.score);
      EnterCounted(first, log, Tallied(), entry, Counts(user.total, user.nwin, user.nloss));
      AddEntry(entry);
    }

    method AddEntry(entry: Entry)
      requires entry !in entries && entry.state == Online && entry.gameInfo == null
      modifies this`entrys, this`userList, this`entries, this`roll, this`base, this`first
      ensures Now() == Enter(old(Now()), entry, entry.connId) && entries == old(entries) + {entry}
      ensures entry.connId in entrys && entrys[entry.connId] == entry
      ensures roll == old(roll) + [entry] && base == old(base)[entry := entry.score]
      ensures Scores() == old(Scores())[entry := entry.score]
      ensures first == old(first)[entry := Counts(entry.total, entry.nwin, entry.nloss)]
      ensures Tallied() == old(Tallied())[entry := Counts(entry.total, entry.nwin, entry.nloss)]
    {
      hide Seats, Links, Clocks, Scores, Tallied;
      ListEntry(entry);
      roll, base := roll + [entry], base[entry := entry.score];
      first := first[entry := Counts(entry.total, entry.nwin, entry.nloss)];
    }

    method ListEntry(entry: Entry)
      requires entry !in entries && entry.state == Online && entry.gameInfo == null
      modifies this`entrys, this`userList, this`entries
      ensures Now() == Enter(old(Now()), entry, entry.connId) && entries == old(entries) + {entry}
      ensures entry.connId in entrys && entrys[entry.connId] == entry
      ensures Scores() == old(Scores())[entry := entry.score]
      ensures Tallied() == old(Tallied())[entry := Counts(entry.total, entry.nwin, entry.nloss)]
    {
      hide Seats, Links, Clocks, Scores, Tallied;
      entrys := entrys[entry.connId := entry];
      userList := userList[entry.name := entry.connId];
      entries := entries + {entry};
      SeatAdded(entry);
      ScoreAdded(entry);
      TallyAdded(entry);
    }

    twostate lemma SeatAdded(entry: Entry)
      requires entry !in old(entries) && entries == old(entries) + {entry}
      requires forall x :: x in old(entries) ==>
        x.connId == old(x.connId) && x.state == old(x.state) && x.gameInfo == old(x.gameInfo)
      ensures Seats() == old(Seats())[entry := Seat(entry.connId, entry.state, entry.gameInfo)]
    {
    }

    twostate lemma ScoreAdded(entry: Entry)
      requires entry !in old(entries) && entries == old(entries) + {entry}
      requires forall x :: x in old(entries) ==> x.score == old(x.score)
      ensures Scores() == old(Scores())[entry := entry.score]
    {
    }

    twostate lemma TallyAdded(entry: Entry)
      requires entry !in old(entries) && entries == old(entries) + {entry}
      requires forall x :: x in old(entries) ==>
        x.total == old(x.total) && x.nwin == old(x.nwin) && x.nloss == old(x.nloss)
      ensures Tallied() == old(Tallied())[entry := Counts(entry.total, entry.nwin, entry.nloss)]
    {
    }

    method SetEntryState(entry: Entry, state: State)
      requires entry in entries
      modifies entry`state
      ensures entry.state == state && Now() == SetState(old(Now()), entry, state)
    {
      entry.state := state;
      assert Seats() == old(Seats())[entry := old(Seats())[entry].(state := state)];
    }

    /** onMatchRequest. */
    method MatchRequest(id: int)
      requires Valid() && id in entrys
      modifies entries`state
      ensures Valid()
      ensures Now() == if old(entrys[id].state) == Online then SetState(old(Now()), entrys[id], Matching)
                       else old(Now())
      ensures Scores() == old(Scores())
    {
      hide Good, Books;
      HallEntry(id);
      var entry := entrys[id];
      if entry.state == Online {
        SetStateGood(Now(), entry, Matching);
        SetEntryState(entry, Matching);
      }
    }

    /** onCancelMatchRequest. */
    method CancelMatch(id: int)
      requires Valid()
      modifies entries`state
      ensures Valid()
      ensures Now() == if id in entrys && old(FindByConnId(id).state) == Matching
                       then SetState(old(Now()), entrys[id], Online) else old(Now())
      ensures Scores() == old(Scores())
    {
      hide Good, Books;
      var entry := FindByConnId(id);
      if entry != null {
        HallEntry(id);
        if entry.state == Matching {
          SetStateGood(Now(), entry, Online);
          SetEntryState(entry, Online);
        }
      }
    }

    /** onMatchBackendResponse: two matching users sit down in a new room, and Red's timer starts. */
    method MatchResponse(redName: string, blackName: string, quick: bool) returns (started: bool)
      requires Valid() && redName != blackName
      modifies this`timers, this`nextTimer, this`live, this`infos, this`rooms, entries`state, entries`gameInfo
      ensures Valid() && entries == old(entries) && ended == old(ended)
      ensures old(infos) <= infos && old(rooms) <= rooms && fresh(infos - old(infos)) && fresh(rooms - old(rooms))
      ensures started <==> IsMatching(old(Now()), redName) && IsMatching(old(Now()), blackName)
      ensures !started ==> Now() == old(Now())
      ensures Scores() == old(Scores())
      ensures started ==> SatDown(old(Now()), Now(), old(FindByUsername(redName)),
                                  old(FindByUsername(blackName)), quick)
    {
      hide Good, Sit, SatDown, Seats, Links, Clocks, Scores, Present, IsMatching, Now, Books;
      var red, black := FindByUsername(redName), FindByUsername(blackName);
      NamedEntry(redName);
      NamedEntry(blackName);
      started := red != null && black != null && red.state == Matching && black.state == Matching;
      if started {
        CreateRoom(red, black, quick);
      }
    }

    lemma NamedEntry(name: string)
      requires Valid()
      ensures var e := FindByUsername(name);
              && (e == null ==> !IsMatching(Now(), name))
              && (e != null ==> e in entries && Present(Now(), e) && e.name == name
                                && (IsMatching(Now(), name) <==> e.state == Matching))
    {
    }

    lemma GoodParts()
      requires Valid()
      ensures Indexed(Now())
    {
    }

    /** createRoom and startNewGame. */
    method CreateRoom(red: Entry, black: Entry, quick: bool)
      requires Valid() && red in entries && black in entries && red != black
      requires Present(Now(), red) && Present(Now(), black) && red.state == Matching && black.state == Matching
      modifies this`timers, this`nextTimer, this`live, this`infos, this`rooms
      modifies red`state, red`gameInfo, black`state, black`gameInfo
      ensures Valid() && SatDown(old(Now()), Now(), red, black, quick)
      ensures old(infos) <= infos && old(rooms) <= rooms && fresh(infos - old(infos)) && fresh(rooms - old(rooms))
    {
      hide Good, Sit, SatDown, Seats, Links, Clocks, Books, Present;
      var r, ri, bi := NewObjects(red.connId, black.connId, quick);
      Pair(red, black, r, ri, bi);
    }

    method NewObjects(redId: int, blackId: int, quick: bool) returns (r: RoomInfo, ri: InGameInfo, bi: InGameInfo)
      ensures fresh(r) && fresh(ri) && fresh(bi) && ri != bi && Unplayed(r) && r.quick == quick
      ensures ri.info == r && bi.info == r && ri.red && !bi.red && ri.connId == redId && bi.connId == blackId
    {
      r := new RoomInfo(quick);
      ri := new InGameInfo(redId, true, r);
      bi := new InGameInfo(blackId, false, r);
    }

    method Pair(red: Entry, black: Entry, r: RoomInfo, ri: InGameInfo, bi: InGameInfo)
      requires Valid() && red in entries && black in entries && red != black
      requires Present(Now(), red) && Present(Now(), black) && red.state == Matching && black.state == Matching
      requires r !in rooms && ri !in infos && bi !in infos && ri != bi && Unplayed(r)
      requires ri.info == r && bi.info == r && ri.red && !bi.red && ri.connId == red.connId && bi.connId == black.connId
      modifies this`timers, this`nextTimer, this`live, this`infos, this`rooms
      modifies red`state, red`gameInfo, black`state, black`gameInfo, r, ri, bi
      ensures Valid() && SatDown(old(Now()), Now(), red, black, r.quick)
      ensures infos == old(infos) + {ri, bi} && rooms == old(rooms) + {r}
    {
      hide Good, Sit, SatDown, Seats, Links, Clocks, Books;
      Domains();
      SeatAt(red);
      SeatAt(black);
      SitGood(Now(), red, black, r, ri, bi);
      SatDownIs(Now(), red, black, r, ri, bi);
      SitDown(red, black, r, ri, bi);
    }

    method SitDown(red: Entry, black: Entry, r: RoomInfo, ri: InGameInfo, bi: InGameInfo)
      requires red in entries && black in entries && red != black && r !in rooms && ri !in infos && bi !in infos
      requires ri != bi && ri.connId == red.connId && bi.connId == black.connId && Unplayed(r)
      modifies this`timers, this`nextTimer, this`live, this`infos, this`rooms
      modifies red`state, red`gameInfo, black`state, black`gameInfo, r, ri, bi
      ensures Now() == Sit(old(Now()), red, black, r, ri, bi)
      ensures infos == old(infos) + {ri, bi} && rooms == old(rooms) + {r}
    {
      hide Seats, Links, Clocks;
      SeatAt(red);
      SeatAt(black);
      TakeSeats(red, black, ri, bi);
      StartNewGame(red, black, r, ri, bi);
    }

    method TakeSeats(red: Entry, black: Entry, ri: InGameInfo, bi: InGameInfo)
      requires red in entries && black in entries && red != black && ri != bi && ri !in infos && bi !in infos
      modifies red`state, red`gameInfo, black`state, black`gameInfo, ri`oppPlayer, bi`oppPlayer
      ensures ri.oppPlayer == bi && bi.oppPlayer == ri
      ensures Seats() == old(Seats())[red := Seat(red.connId, Playing, ri)][black := Seat(black.connId, Playing, bi)]
      ensures Links() == old(Links()) && Clocks() == old(Clocks())
    {
      hide Seats, Clocks;
      ri.oppPlayer, bi.oppPlayer := bi, ri;
      red.gameInfo, red.state := ri, Playing;
      black.gameInfo, black.state := bi, Playing;
      TwoSeats(Players(red, black));
    }

    /** startNewGame: the room is live, and Red's timer runs. */
    method StartNewGame(red: Entry, black: Entry, r: RoomInfo, ri: InGameInfo, bi: InGameInfo)
      requires r !in rooms && ri !in infos && bi !in infos && ri != bi
      modifies this`timers, this`nextTimer, this`live, this`infos, this`rooms, r`timer
      ensures timers == old(timers)[old(nextTimer) := red] && nextTimer == old(nextTimer) + 1
      ensures live == old(live)[r := Players(red, black)] && infos == old(infos) + {ri, bi} && rooms == old(rooms) + {r}
      ensures Links() == old(Links())[ri := Link(ri.connId, ri.oppPlayer)][bi := Link(bi.connId, bi.oppPlayer)]
      ensures Clocks() == old(Clocks())[r := ClockOf(r)] && r.timer == old(nextTimer)
    {
      hide Seats, Links, Clocks;
      r.timer := RunAfter(red);
      live := live[r := Players(red, black)];
      infos, rooms := infos + {ri, bi}, rooms + {r};
      TwoLinks((ri, bi));
      NewClock(r);
    }

    twostate lemma TwoSeats(p: Players)
      requires p.red in entries && p.black in entries && entries == old(entries)
      requires forall e :: e in entries && !p.Has(e) ==>
                 e.connId == old(e.connId) && e.state == old(e.state) && e.gameInfo == old(e.gameInfo)
      ensures Seats() == old(Seats())[p.red := Seat(p.red.connId, p.red.state, p.red.gameInfo)]
                                     [p.black := Seat(p.black.connId, p.black.state, p.black.gameInfo)]
    {
    }

    twostate lemma TwoLinks(p: (InGameInfo, InGameInfo))
      requires infos == old(infos) + {p.0, p.1}
      requires forall i :: i in old(infos) && i != p.0 && i != p.1 ==>
                 i.connId == old(i.connId) && i.oppPlayer == old(i.oppPlayer)
      ensures Links() == old(Links())[p.0 := Link(p.0.connId, p.0.oppPlayer)][p.1 := Link(p.1.connId, p.1.oppPlayer)]
    {
    }

    twostate lemma NewClock(r: RoomInfo)
      requires rooms == old(rooms) + {r}
      requires forall q :: q in old(rooms) && q != r ==> ClockOf(q) == old(ClockOf(q))
      ensures Clocks() == old(Clocks())[r := ClockOf(r)]
    {
    }

    /** Arm a timer for an entry; the event loop gives it a new id. */
    method RunAfter(e: Entry) returns (timer: nat)
      modifies this`timers, this`nextTimer
      ensures timer == old(nextTimer) && nextTimer == timer + 1 && timers == old(timers)[timer := e]
    {
      timer := nextTimer;
      timers, nextTimer := timers[timer := e], nextTimer + 1;
    }

    /** Cancel the room's timer, count the steps, and arm a timer for e. */
    method Restart(r: RoomInfo, e: Entry, fen: string, mv: int, steps: int)
      requires r in rooms
      modifies this`timers, this`nextTimer, r
      ensures Now() == Rearm(old(Now()), r, e, steps, Shown(fen, mv))
    {
      hide Seats, Links, Clocks;
      ClockAt(r);
      timers := timers - {r.timer};
      var timer := RunAfter(e);
      r.fen, r.lastMoveStep, r.totalSteps, r.timer := fen, mv, steps, timer;
      OnlyClock(r);
    }

    /** Of all entries, infos and rooms only r changed. */
    twostate lemma OnlyClock(r: RoomInfo)
      requires r in rooms && entries == old(entries) && infos == old(infos) && rooms == old(rooms)
      requires forall e :: e in entries ==>
        e.connId == old(e.connId) && e.state == old(e.state) && e.gameInfo == old(e.gameInfo)
      requires forall i :: i in infos ==> i.connId == old(i.connId) && i.oppPlayer == old(i.oppPlayer)
      requires forall q :: q in rooms && q != r ==> ClockOf(q) == old(ClockOf(q))
      ensures Seats() == old(Seats()) && Links() == old(Links())
      ensures Clocks() == old(Clocks())[r := ClockOf(r)]
    {
    }

    /** updateUserInfo. */
    method UpdateUserInfo(e: Entry, change: int, wins: nat, losses: nat)
      requires e in entries
      modifies this`log, e`score, e`total, e`nwin, e`nloss
      ensures log == old(log) + [Change(e, change)]
      ensures e in old(Scores()) && Scores() == old(Scores())[e := old(Scores())[e] + change]
      ensures e in old(Tallied())
      ensures var was := old(Tallied())[e];
              Tallied() == old(Tallied())[e := Counts(was.total + 1, was.nwin + wins, was.nloss + losses)]
    {
      log := log + [Change(e, change)];
      e.score, e.total := e.score + change, e.total + 1;
      e.nwin, e.nloss := e.nwin + wins, e.nloss + losses;
      assert Scores() == old(Scores())[e := old(e.score) + change];
      assert Tallied() == old(Tallied())[e := Counts(e.total, e.nwin, e.nloss)];
    }

    /** destroyRoomInfoOfEntry. */
    method DestroyRoomInfo(e: Entry)
      requires e in entries
      modifies this`entrys, this`userList, e`state, e`gameInfo
      ensures Now() == Drop(old(Now()), e)
    {
      hide Seats, Links, Clocks;
      SeatAt(e);
      if e.state == DisconnectedInPlaying || e.state == Disconnected {
        e.state := Disconnected;
        entrys := entrys - {e.connId};
        userList := userList - {e.name};
      } else if e.state == Playing {
        e.gameInfo := null;
        e.state := Online;
      }
      OneSeat(e);
    }

    twostate lemma OneSeat(e: Entry)
      requires e in entries && entries == old(entries)
      requires forall x :: x in entries && x != e ==>
        x.connId == old(x.connId) && x.state == old(x.state) && x.gameInfo == old(x.gameInfo)
      ensures Seats() == old(Seats())[e := Seat(e.connId, e.state, e.gameInfo)]
    {
    }

    /** gameOver: one side's gain is the other's loss, the timer is cancelled, and the room ends. */
    method GameOver(self: Entry, opp: Entry, over: OverType)
      requires Valid() && self in entries && opp in entries && self != opp && self.gameInfo != null
      requires self.gameInfo.info in live && self.gameInfo.info in rooms
      requires live[self.gameInfo.info].Has(self) && live[self.gameInfo.info].Has(opp)
      modifies this`entrys, this`userList, this`timers, this`live, this`ended, this`log, self, opp
      ensures Valid() && Now() == AfterGame(old(Now()), self)
      ensures Scores() == AfterScores(old(Now()), old(Scores()), self, ChangeScore(over))
      ensures Tallied() == Recounted(old(Tallied()), self, opp, ChangeScore(over))
      ensures ended == old(ended) + [old(self.gameInfo.info)] && old(self.gameInfo.info) !in old(ended)
      ensures timers == old(timers) - {old(self.gameInfo.info.timer)}
      ensures old(log) <= log
    {
      hide Good, AfterGame, AfterScores, Paid, Scores, Tallied, Seats, Links, Clocks, Balanced, Counted, Recounted;
      SeatAt(self);
      ResultPaid(Now(), Scores(), self, opp, ChangeScore(over));
      SettleBooks(self, opp, over);
      EndGame(self, opp);
    }

    /** Settling keeps the books balanced for one more ended game. */
    method SettleBooks(self: Entry, opp: Entry, over: OverType)
      requires Books() && self in entries && opp in entries && self != opp
      modifies this`log, self`score, self`total, self`nwin, self`nloss, opp`score, opp`total, opp`nwin, opp`nloss
      ensures Balanced(roll, base, log, Scores(), |ended| + 1) && Counted(first, log, Tallied())
      ensures old(log) <= log && Now() == old(Now()) && Scores() == Paid(old(Scores()), self, opp, ChangeScore(over))
      ensures Tallied() == Recounted(old(Tallied()), self, opp, ChangeScore(over))
    {
      hide Paid, Recounted, Scores, Tallied, Seats, Links, Clocks, Balanced, Counted;
      Domains();
      PaidBalanced(roll, base, log, Scores(), |ended|, self, opp, ChangeScore(over));
      GameCounted(first, log, Tallied(), self, opp, ChangeScore(over));
      Settle(self, opp, over);
    }

    /** The rest of gameOver. */
    method EndGame(self: Entry, opp: Entry)
      requires Good(Now()) && self in entries && opp in entries && self != opp && self.gameInfo != null
      requires self.gameInfo.info in live && self.gameInfo.info in rooms
      requires live[self.gameInfo.info].Has(self) && live[self.gameInfo.info].Has(opp)
      modifies this`entrys, this`userList, this`timers, this`live, this`ended
      modifies self`state, self`gameInfo, opp`state, opp`gameInfo
      ensures Good(Now()) && Now() == AfterGame(old(Now()), self)
      ensures ended == old(ended) + [old(self.gameInfo.info)] && old(self.gameInfo.info) !in old(ended)
      ensures timers == old(timers) - {old(self.gameInfo.info.timer)}
    {
      hide Good, Drop, Seats, Links, Clocks, Books;
      SeatAt(self);
      SeatAt(opp);
      ClockAt(self.gameInfo.info);
      OverGood(Now(), self.gameInfo.info, self, opp);
      EndsOnce(self.gameInfo.info);
      CloseRoom(self.gameInfo.info);
      DestroyRoomInfo(self);
      DestroyRoomInfo(opp);
    }

    lemma EndsOnce(r: RoomInfo)
      requires Good(Now()) && r in live
      ensures r !in ended
    {
    }

    /** The scores and counts of both players. */
    method Settle(self: Entry, opp: Entry, over: OverType)
      requires self in entries && opp in entries && self != opp
      modifies this`log, self`score, self`total, self`nwin, self`nloss, opp`score, opp`total, opp`nwin, opp`nloss
      ensures log == old(log) + [Change(self, ChangeScore(over))] + [Change(opp, -ChangeScore(over))]
      ensures Now() == old(Now())
      ensures Scores() == Paid(old(Scores()), self, opp, ChangeScore(over))
      ensures Tallied() == Recounted(old(Tallied()), self, opp, ChangeScore(over))
    {
      hide Scores, Tallied, Seats, Links, Clocks, Now, Paid, Recounted;
      var change := ChangeScore(over);
      match over {
        case Draw => UpdateBoth(self, opp, change, 0, 0);
        case Win => UpdateBoth(self, opp, change, 1, 0);
        case _ => UpdateBoth(self, opp, change, 0, 1);
      }
    }

    /** One player's change, and the opposite one for the other. */
    method UpdateBoth(self: Entry, opp: Entry, change: int, wins: nat, losses: nat)
      requires self in entries && opp in entries && self != opp
      requires wins == (if change > 0 then 1 else 0) && losses == if change < 0 then 1 else 0
      modifies this`log, self`score, self`total, self`nwin, self`nloss, opp`score, opp`total, opp`nwin, opp`nloss
      ensures log == old(log) + [Change(self, change)] + [Change(opp, -change)]
      ensures Now() == old(Now()) && Scores() == Paid(old(Scores()), self, opp, change)
      ensures Tallied() == Recounted(old(Tallied()), self, opp, change)
    {
      hide Scores, Tallied, Seats, Links, Clocks;
      UpdateUserInfo(self, change, wins, losses);
      UpdateUserInfo(opp, -change, losses, wins);
    }

    method CloseRoom(r: RoomInfo)
      requires r in rooms
      modifies this`timers, this`live, this`ended
      ensures Now() == Close(old(Now()), r)
    {
      timers := timers - {r.timer};
      live := live - {r};
      ended := ended + [r];
    }

    /** The turn passes from self to opp, one step on or one back. */
    method StepOn(self: Entry, opp: Entry, fen: string, mv: int, n: int)
      requires Valid() && self in entries && self != opp && self.gameInfo != null && IsTurn(self) && (n == 1 || n == -1)
      requires self.gameInfo.info in live && self.gameInfo.info in rooms
      requires live[self.gameInfo.info].Has(opp)
      requires live[self.gameInfo.info].ToMove(self.gameInfo.info.totalSteps) == self
      modifies this`timers, this`nextTimer, self.gameInfo.info
      ensures Valid() && Now() == AfterStep(old(Now()), self, n, Shown(fen, mv))
    {
      hide Good, Rearm, Seats, Links, Clocks, Books;
      var r := self.gameInfo.info;
      SeatAt(self);
      ClockAt(r);
      RearmGood(Now(), r, opp, r.totalSteps + n, Shown(fen, mv));
      Restart(r, opp, fen, mv, r.totalSteps + n);
    }

    /** onMoveStep: the player to move ends the game or passes the turn; anyone else is ignored. */
    method MoveStep(id: int, over: bool, fen: string, mv: int)
      requires Valid() && id in entrys
      modifies this`entrys, this`userList, this`timers, this`nextTimer, this`live, this`ended, this`log
      modifies entries, infos, rooms
      ensures Valid() && old(ended) <= ended && old(log) <= log
      ensures var e := old(entrys[id]);
              Now() == if old(e.state) == Playing && old(e.gameInfo != null && IsTurn(e))
                       then AfterMove(old(Now()), e, over, Shown(fen, mv)) else old(Now())
      ensures var e := old(entrys[id]);
              Scores() == if over && old(e.state) == Playing && old(e.gameInfo != null && IsTurn(e))
                          then AfterScores(old(Now()), old(Scores()), e, 10) else old(Scores())
    {
      hide Good, AfterStep, AfterGame, AfterScores, Seats, Links, Clocks, Scores, Books;
      var self := entrys[id];
      HallEntry(id);
      if self.state == Playing {
        RoomEntry(self);
        if IsTurn(self) {
          var opp := FindOpp(self);
          if over {
            GameOver(self, opp, Win);
          } else {
            StepOn(self, opp, fen, mv, 1);
          }
        }
      }
    }

    /** onGiveup: any playing side may end the game. */
    method Giveup(id: int)
      requires Valid() && id in entrys
      modifies this`entrys, this`userList, this`timers, this`nextTimer, this`live, this`ended, this`log
      modifies entries, infos, rooms
      ensures Valid() && old(ended) <= ended && old(log) <= log
      ensures Now() == if old(entrys[id].state) == Playing then AfterGame(old(Now()), old(entrys[id])) else old(Now())
      ensures Scores() == if old(entrys[id].state) == Playing
                          then AfterScores(old(Now()), old(Scores()), old(entrys[id]), -10) else old(Scores())
    {
      hide Good, AfterGame, AfterScores, Seats, Links, Clocks, Scores, Books;
      var self := entrys[id];
      HallEntry(id);
      if self.state == Playing {
        RoomEntry(self);
        var opp := FindOpp(self);
        GameOver(self, opp, SelfGiveup);
      }
    }

    /** onForgiveResponse of a playing sender; an agreed take-back comes from the side to move. */
    method ForgiveResponse(id: int, agree: bool, fen: string, mv: int)
      requires Valid() && id in entrys && entrys[id].state == Playing && entrys[id].gameInfo != null
      requires agree ==> IsTurn(entrys[id])
      modifies this`timers, this`nextTimer, rooms
      ensures Valid() && ended == old(ended)
      ensures Now() == if agree then AfterStep(old(Now()), old(entrys[id]), -1, Shown(fen, mv)) else old(Now())
      ensures Scores() == old(Scores())
    {
      hide Good, AfterStep, Seats, Links, Clocks, Books;
      var self := entrys[id];
      HallEntry(id);
      RoomEntry(self);
      var opp := FindOpp(self);
      if agree {
        StepOn(self, opp, fen, mv, -1);
      }
    }

    /** onDrawResponse of a playing sender. */
    method DrawResponse(id: int, agree: bool)
      requires Valid() && id in entrys && entrys[id].state == Playing
      modifies this`entrys, this`userList, this`timers, this`nextTimer, this`live, this`ended, this`log
      modifies entries, infos, rooms
      ensures Valid() && old(ended) <= ended && old(log) <= log
      ensures Now() == if agree then AfterGame(old(Now()), old(entrys[id])) else old(Now())
      ensures Scores() == if agree then AfterScores(old(Now()), old(Scores()), old(entrys[id]), 0) else old(Scores())
    {
      hide Good, AfterGame, AfterScores, Seats, Links, Clocks, Scores, Books;
      var self := entrys[id];
      HallEntry(id);
      RoomEntry(self);
      var opp := FindOpp(self);
      if agree {
        GameOver(self, opp, Draw);
      }
    }

    /** onTimeOut, called by the event loop for an armed timer: the player it belongs to loses. The
        loop drops the expired timer, as cancelling it does here. */
    method TimeOut(t: nat)
      requires Valid() && t in timers
      modifies this`entrys, this`userList, this`timers, this`nextTimer, this`live, this`ended, this`log
      modifies entries, infos, rooms
      ensures Valid() && old(ended) < ended && old(log) <= log && t !in timers
      ensures Now() == AfterGame(old(Now()), old(timers[t]))
      ensures Scores() == AfterScores(old(Now()), old(Scores()), old(timers[t]), -10)
    {
      hide Good, AfterGame, AfterScores, Seats, Links, Clocks, Scores, Books;
      var e := timers[t];
      TimerOwner(t);
      RoomEntry(e);
      var opp := FindOpp(e);
      GameOver(e, opp, SelfTimeout);
    }

    lemma TimerOwner(t: nat)
      requires Valid() && t in timers
      ensures timers[t] in entries && Present(Now(), timers[t]) && timers[t].gameInfo != null
      ensures timers[t].gameInfo.info.timer == t && timers[t].gameInfo.info in live && timers[t].gameInfo.info in rooms
    {
      assert Armed(Now(), t);
      assert Table(Now(), timers[t].gameInfo.info);
    }

    /** onDisconnected: a player in a game keeps its seat; anyone else leaves the hall. */
    method Disconnect(id: int)
      requires Valid() && (id in entrys ==> entrys[id].state != DisconnectedInPlaying)
      modifies this`entrys, this`userList, entries`state
      ensures Valid()
      ensures Now() == if id !in old(entrys) then old(Now())
                       else if old(entrys[id].state) == Playing
                       then SetState(old(Now()), old(entrys[id]), DisconnectedInPlaying)
                       else Leave(old(Now()), old(entrys[id]))
      ensures Scores() == old(Scores())
    {
      hide Good, Books;
      var entry := FindByConnId(id);
      if entry != null {
        HallEntry(id);
        if entry.state == Playing {
          SetStateGood(Now(), entry, DisconnectedInPlaying);
          SetEntryState(entry, DisconnectedInPlaying);
        } else {
          LeaveGood(Now(), entry);
          OutOfHall(id, entry.name);
        }
      }
    }

    method OutOfHall(id: int, name: string)
      modifies this`entrys, this`userList
      ensures entrys == old(entrys) - {id} && userList == old(userList) - {name}
    {
      entrys := entrys - {id};
      userList := userList - {name};
    }

    /** The login does not put an entry under a connection that another entry holds: the connection is
        not in the hall, or the login is one that is ignored or refused. */
    predicate MayLogin(id: nat, name: string)
      reads this`entrys, this`userList, entrys.Values
    {
      id in entrys ==>
        && name in userList && userList[name] in entrys
        && (userList[name] == id || entrys[userList[name]].state != DisconnectedInPlaying)
    }

    /** The user is in the hall and may come back on this connection. */
    predicate ComesBack(id: nat, name: string)
      reads this`entrys, this`userList, entrys.Values
    {
      name in userList && userList[name] in entrys && userList[name] != id
      && entrys[userList[name]].state == DisconnectedInPlaying
    }

    /** onLoginSuccessResponse: a new user enters, a player disconnected in a game comes back to it, a
        user who is already here is refused, and a repeated login on the same connection is ignored. */
    method Login(id: nat, user: UserInfo)
      requires Valid() && MayLogin(id, user.name)
      modifies this`entrys, this`userList, this`entries, this`roll, this`base, this`first
      modifies entries`state, entries`connId, infos`connId
      ensures Valid() && ended == old(ended) && rooms == old(rooms) && infos == old(infos)
      ensures if user.name in old(userList)
              then roll == old(roll) && base == old(base) && first == old(first) && Scores() == old(Scores())
              else id in entrys && entrys[id] !in old(entries) && roll == old(roll) + [entrys[id]]
                   && first == old(first)[entrys[id] := Counts(user.total, user.nwin, user.nloss)]
                   && base == old(base)[entrys[id] := user.score] && Scores() == old(Scores())[entrys[id] := user.score]
      ensures old(entries) <= entries && fresh(entries - old(entries))
      ensures user.name !in old(userList) ==>
                && id in entrys && Now() == Enter(old(Now()), entrys[id], id)
                && UserInfo(entrys[id].name, entrys[id].score, entrys[id].total, entrys[id].nwin,
                           entrys[id].nloss) == user
      ensures old(ComesBack(id, user.name)) ==>
                Present(Now(), old(FindByUsername(user.name)))
                  && Returned(old(Now()), Now(), old(FindByUsername(user.name)), id)
      ensures user.name in old(userList) && !old(ComesBack(id, user.name)) ==> Now() == old(Now())
    {
      hide Good, Enter, Return, Books, Scores, Seats, Links, Clocks, Present, Returned;
      if user.name !in userList {
        var entry := IntoHall(id, user);
      } else {
        LoginAgain(id, user.name);
      }
    }

    /** The login of a user who is in the hall. */
    method LoginAgain(id: nat, name: string)
      requires Valid() && MayLogin(id, name) && name in userList
      modifies this`entrys, this`userList, entries`state, entries`connId, infos`connId
      ensures Valid()
      ensures if old(ComesBack(id, name))
              then Present(Now(), old(FindByUsername(name)))
                && Returned(old(Now()), Now(), old(FindByUsername(name)), id)
              else Now() == old(Now())
    {
      hide Good, Enter, Return, Books, Scores, Seats, Links, Clocks;
      assert Indexed(Now()) by {
        GoodParts();
      }
      var oldId := userList[name];
      if oldId == id {
        return;
      }
      var entry := entrys[oldId];
      HallEntry(oldId);
      if entry.state == DisconnectedInPlaying {
        RoomEntry(entry);
        Reconnect(entry, id);
      }
    }

    /** onReconnected. */
    method Reconnect(entry: Entry, newId: nat)
      requires Valid() && entry in entries && Present(Now(), entry) && entry.state == DisconnectedInPlaying
        && newId !in entrys
      requires entry.gameInfo != null
      modifies this`entrys, this`userList, entry`state, entry`connId, entry.gameInfo`connId
      ensures Valid() && Returned(old(Now()), Now(), entry, newId) && Present(Now(), entry)
    {
      hide Good, Seats, Links, Clocks, Books, Return;
      SeatAt(entry);
      RoomEntry(entry);
      ReturnGood(Now(), entry, newId);
      ReturnPresent(Now(), entry, newId);
      Rejoin(entry, newId);
    }

    /** Out of the hall under the old connection and in again under the new one. */
    method Rejoin(entry: Entry, newId: nat)
      requires entry in entries && entry.gameInfo != null && entry.gameInfo in infos
      modifies this`entrys, this`userList, entry`state, entry`connId, entry.gameInfo`connId
      ensures Returned(old(Now()), Now(), entry, newId)
    {
      hide Seats, Links, Clocks;
      SeatAt(entry);
      Domains();
      OutOfHall(entry.connId, entry.name);
      ComeBack(entry, newId);
      OneReturned(entry);
    }

    /** intoHall for an entry that was here before. */
    method ComeBack(entry: Entry, newId: nat)
      requires entry.gameInfo != null
      modifies this`entrys, this`userList, entry`state, entry`connId, entry.gameInfo`connId
      ensures entrys == old(entrys)[newId := entry] && userList == old(userList)[entry.name := newId]
      ensures entry.state == Playing && entry.connId == newId && entry.gameInfo.connId == newId
    {
      entry.state, entry.connId := Playing, newId;
      entry.gameInfo.connId := newId;
      entrys := entrys[newId := entry];
      userList := userList[entry.name := newId];
    }

    twostate lemma OneReturned(e: Entry)
      requires e in entries && e.gameInfo != null && e.gameInfo == old(e.gameInfo) && e.gameInfo in infos
      requires entries == old(entries) && infos == old(infos) && rooms == old(rooms)
      requires forall x :: x in entries && x != e ==>
        x.connId == old(x.connId) && x.state == old(x.state) && x.gameInfo == old(x.gameInfo)
      requires forall i :: i in infos && i != e.gameInfo ==>
        i.connId == old(i.connId) && i.oppPlayer == old(i.oppPlayer)
      requires e.gameInfo.oppPlayer == old(e.gameInfo.oppPlayer)
      requires forall q :: q in rooms ==> ClockOf(q) == old(ClockOf(q))
      ensures Seats() == old(Seats())[e := Seat(e.connId, e.state, e.gameInfo)] && Clocks() == old(Clocks())
      ensures Links() == old(Links())[e.gameInfo := Link(e.gameInfo.connId, old(Links())[e.gameInfo].opp)]
    {
    }

    // ---- Runs ----

    /** The events the protocol allows now: what the handlers themselves do not guard against. */
    predicate Allowed(e: Event)
      reads this`entrys, this`userList, this`timers, entrys.Values
      reads set x | x in entrys.Values && x.gameInfo != null :: x.gameInfo
      reads set x | x in entrys.Values && x.gameInfo != null :: x.gameInfo.info
    {
      match e
      case LoggedIn(id, user) => MayLogin(id, user.name)
      case MatchAsked(id) => id in entrys
      case CancelAsked(id) => true
      case Paired(redName, blackName, quick) => redName != blackName
      case Moved(id, over, fen, mv) => id in entrys
      case GaveUp(id) => id in entrys
      case TakeBackAnswered(id, agree, fen, mv) =>
        && id in entrys && entrys[id].state == Playing && entrys[id].gameInfo != null
        && (agree ==> IsTurn(entrys[id]))
      case DrawAnswered(id, agree) => id in entrys && entrys[id].state == Playing
      case WentAway(id) => id in entrys ==> entrys[id].state != DisconnectedInPlaying
      case TimedOut(t) => t in timers
    }

    /** The events that may end a game. */
    method HandleGame(e: Event)
      requires Valid() && Allowed(e) && (e.Moved? || e.GaveUp? || e.DrawAnswered? || e.TimedOut?)
      modifies this`entrys, this`userList, this`timers, this`nextTimer, this`live, this`ended, this`log
      modifies entries, infos, rooms
      ensures Valid() && old(ended) <= ended && old(log) <= log
      ensures Follows(old(Now()), Now(), e)
      ensures Scores() == ScoresAfter(old(Now()), old(Scores()), e)
    {
      hide Good, Now, Over, AfterGame, AfterStep, AfterMove, Books, AfterScores, Plays, Turn, Scores;
      TurnsAre();
      match e {
        case Moved(id, over, fen, mv) => MoveStep(id, over, fen, mv);
        case GaveUp(id) => Giveup(id);
        case DrawAnswered(id, agree) => DrawResponse(id, agree);
        case TimedOut(t) => TimeOut(t);
      }
    }

    /** The states of the entries, as the hall has them. */
    lemma StatesAre()
      requires Valid()
      ensures Now().entrys == entrys && Now().userList == userList && Now().timers == timers
      ensures forall id: int :: id in entrys ==> entrys[id] in Now().seats
      ensures forall id: int, s: State :: InState(Now(), id, s) <==> id in entrys && entrys[id].state == s
      ensures forall id: int :: Plays(Now(), id) <==> id in entrys && entrys[id].state == Playing
    {
      forall id | id in entrys
        ensures entrys[id] in Now().seats && Now().seats[entrys[id]].state == entrys[id].state
      {
        HallEntry(id);
        SeatAt(entrys[id]);
      }
    }

    /** The events that neither end a game nor make anything new. */
    method HandleQuiet(e: Event)
      requires Valid() && Allowed(e) && (e.MatchAsked? || e.CancelAsked? || e.TakeBackAnswered? || e.WentAway?)
      modifies this`entrys, this`userList, this`timers, this`nextTimer, entries, rooms
      ensures Valid() && Scores() == old(Scores())
      ensures Follows(old(Now()), Now(), e)
    {
      hide Good, Now, AfterStep, Books, Scores, Plays, SetState, Leave;
      StatesAre();
      match e {
        case MatchAsked(id) => MatchRequest(id);
        case CancelAsked(id) => CancelMatch(id);
        case TakeBackAnswered(id, agree, fen, mv) => ForgiveResponse(id, agree, fen, mv);
        case WentAway(id) => Disconnect(id);
      }
    }

    lemma NamedIs(name: string)
      ensures Named(Now(), name) == FindByUsername(name)
      requires Valid()
    {
      hide Good, Books, Seats, Links, Clocks;
      GoodParts();
    }

    /** A pairing. */
    method HandlePaired(e: Event)
      requires Valid() && Allowed(e) && e.Paired?
      modifies this`timers, this`nextTimer, this`live, this`infos, this`rooms, entries`state, entries`gameInfo
      ensures Valid() && Follows(old(Now()), Now(), e)
      ensures entries == old(entries) && ended == old(ended) && Scores() == old(Scores())
      ensures old(infos) <= infos && old(rooms) <= rooms && fresh(infos - old(infos)) && fresh(rooms - old(rooms))
    {
      hide Good, Now, Sit, SatDown, IsMatching, Books, Scores, Named;
      NamedIs(e.redName);
      NamedIs(e.blackName);
      var _ := MatchResponse(e.redName, e.blackName, e.quick);
    }

    /** A login. */
    method HandleLogin(e: Event)
      requires Valid() && Allowed(e) && e.LoggedIn?
      modifies this`entrys, this`userList, this`entries, this`roll, this`base, this`first
      modifies entries`state, entries`connId, infos`connId
      ensures Valid() && Follows(old(Now()), Now(), e) && Grown()
      ensures ended == old(ended) && rooms == old(rooms) && infos == old(infos) && log == old(log)
      ensures old(entries) <= entries && fresh(entries - old(entries))
      ensures forall x :: x in old(entries) ==> x.score == old(x.score)
    {
      hide Good, Enter, Return, Books, Scores, Present, Returned, Now;
      StatesAre();
      Domains();
      AllScored();
      ghost var h := Now();
      Login(e.id, e.user);
      AllScored();
      if e.user.name !in old(userList) {
        HallEntry(e.id);
        EnteredIs(h, entrys[e.id], e.id);
      }
    }

    /** Every allowed event makes the step of the protocol it names, keeps the invariant,
      no room comes off the list of ended ones, and no score
        changes except those of the two players when a game ends. */
    method Handle(e: Event)
      requires Valid() && Allowed(e)
      modifies this, entries, infos, rooms
      ensures Valid() && old(ended) <= ended && Grown() && Follows(old(Now()), Now(), e)
      ensures old(entries) <= entries && old(infos) <= infos && old(rooms) <= rooms
      ensures fresh(entries - old(entries)) && fresh(infos - old(infos)) && fresh(rooms - old(rooms))
      ensures forall x :: x in old(entries) ==>
                x in ScoresAfter(old(Now()), old(Scores()), e)
                  && x.score == ScoresAfter(old(Now()), old(Scores()), e)[x]
    {
      hide Good, Now, Enter, Over, Return, Sit, Rearm, AfterGame, AfterStep, AfterMove, Books, AfterScores, Plays;
      hide Turn, Scores, Tallied, Follows, Permitted, Allowed;
      AllScored();
      if e.LoggedIn? {
        HandleLogin(e);
      } else if e.Paired? {
        HandlePaired(e);
      } else if e.Moved? || e.GaveUp? || e.DrawAnswered? || e.TimedOut? {
        HandleGame(e);
      } else {
        HandleQuiet(e);
      }
      AllScored();
    }

    /** The books only grow. */
    twostate predicate Grown()
      reads this`roll, this`base, this`log, this`first
    {
      && old(roll) <= roll && old(log) <= log
      && (forall e :: e in old(base) ==> e in base && base[e] == old(base)[e])
      && forall e :: e in old(first) ==> e in first && first[e] == old(first)[e]
    }

    /** Whose turn it is, as the hall has it. */
    lemma TurnsAre()
      requires Valid()
      ensures Now().entrys == entrys && Now().timers == timers
      ensures forall id: nat :: id in entrys ==> (Plays(Now(), id) <==> entrys[id].state == Playing)
      ensures forall id: nat :: id in entrys && entrys[id].state == Playing ==>
                entrys[id].gameInfo != null && (Turn(Now(), entrys[id]) <==> IsTurn(entrys[id]))
    {
      forall id: nat | id in entrys
        ensures Plays(Now(), id) <==> entrys[id].state == Playing
        ensures entrys[id].state == Playing ==>
                  entrys[id].gameInfo != null && (Turn(Now(), entrys[id]) <==> IsTurn(entrys[id]))
      {
        HallEntry(id);
        if entrys[id].gameInfo != null {
          RoomEntry(entrys[id]);
        }
      }
    }

    lemma AllScored()
      ensures Scores().Keys == entries && forall x :: x in entries ==> Scores()[x] == x.score
    {
    }

    lemma AllBalanced()
      requires Valid()
      ensures forall e :: e in roll ==> e in Scores() && e in base
      ensures SumOver(roll, Scores()) == SumOver(roll, base) && Counted(first, log, Tallied())
    {
      hide Good, Now, Balanced, Scores;
      NoPointsMade(roll, base, log, Scores(), |ended|);
    }

    /** Allowed is what the protocol permits in the hall. */
    lemma AllowedIs(e: Event)
      requires Valid()
      ensures Allowed(e) <==> Permitted(Now(), e)
    {
      hide Good, Now, Books, Plays, InState, Turn;
      StatesAre();
      TurnsAre();
      NamedHere();
    }

    /** The names of the hall. */
    lemma NamedHere()
      requires Valid()
      ensures forall name :: name in userList ==> userList[name] in entrys && userList[name] >= 0
    {
      GoodParts();
    }

    /** Any run: events that are not allowed when they arrive do not happen. The halls form a trace of the
        protocol, one step for each event, and keep its invariant. The scores, summed over all entries there
        ever were, are the scores of the logins. */
    method Run(events: seq<Event>) returns (ghost halls: seq<Hall>)
      requires Valid()
      modifies this, entries, infos, rooms
      ensures Valid() && old(ended) <= ended && Grown()
      ensures Trace(halls, events) && halls[0] == old(Now()) && halls[|events|] == Now()
      ensures forall h :: h in halls ==> Good(h)
      ensures forall e :: e in roll ==> e in Scores() && e in base
      ensures SumOver(roll, Scores()) == SumOver(roll, base) && Counted(first, log, Tallied())
    {
      hide Good, Now, Books, Follows, Permitted;
      halls := [Now()];
      for i := 0 to |events|
        invariant Valid() && old(ended) <= ended && Grown()
        invariant Trace(halls, events[..i]) && halls[0] == old(Now()) && halls[i] == Now()
        invariant forall h :: h in halls ==> Good(h)
        invariant fresh(entries - old(entries)) && fresh(infos - old(infos)) && fresh(rooms - old(rooms))
      {
        assert events[..i + 1] == events[..i] + [events[i]];
        ghost var h := Now();
        AllowedIs(events[i]);
        if Allowed(events[i]) {
          Handle(events[i]);
        }
        TraceGrows(halls, events[..i], Now(), events[i]);
        halls := halls + [Now()];
      }
      assert events[..|events|] == events;
      AllBalanced();
    }
  }

  /** Any run of events from a new server. */
  method RunNewServer(events: seq<Event>) returns (server: CenterServer, ghost halls: seq<Hall>)
    ensures server.Valid() && fresh(server)
    ensures Trace(halls, events) && halls[|events|] == server.Now() && forall h :: h in halls ==> Good(h)
    ensures halls[0].entrys == map[] && halls[0].userList == map[] && halls[0].timers == map[]
    ensures halls[0].live == map[] && halls[0].ended == []
    ensures forall e :: e in server.roll ==> e in server.Scores() && e in server.base
    ensures SumOver(server.roll, server.Scores()) == SumOver(server.roll, server.base)
    ensures Counted(server.first, server.log, server.Tallied())
  {
    hide CenterServer.Valid, CenterServer.Scores, CenterServer.Seats, CenterServer.Links, CenterServer.Clocks, Good;
    hide Follows, Permitted;
    server := new CenterServer();
    halls := server.Run(events);
  }
}
