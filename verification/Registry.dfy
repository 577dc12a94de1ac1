/**
The registration machine of the epoll event loop on values: what the pollers, the dirty list
and the kernel's interest table say at one moment, and what each operation does to them.

`polls` holds the allocated pollers; a poller leaves it only when the flush frees it.
The main result is that every operation keeps `Inv`, from which deferred freeing is safe and
the kernel is in step with every clean poller that has a watcher.
*/
module Registry {

  /** The bits of `flags` and of an epoll event mask; `Err` in `flags` means dirty, `Et` known to the kernel. */
  datatype Bit = In | Out | Err | Hup | Et

  class Watch {
    var fn: bool          // whether a callback is set
    var poll: Poller?

    constructor ()
      ensures !fn && poll == null
    {
      fn, poll := false, null;
    }
  }

  class Poller {
    var next: Poller?
    var rd: Watch?
    var wr: Watch?
    var fd: int
    var flags: set<Bit>

    /** `xcalloc` and the assignment of `fd` in `ev_watch`. */
    constructor (fd: int)
      ensures next == null && rd == null && wr == null && flags == {} && this.fd == fd
    {
      next, rd, wr, flags := null, null, null, {};
      this.fd := fd;
    }
  }

  datatype Direction = Read | Write

  datatype PollState = PollState(fd: int, rd: Watch?, wr: Watch?, flags: set<Bit>)

  datatype Registration = Registration(poller: Poller, events: set<Bit>)

  datatype WatchState = WatchState(fn: bool, poll: Poller?)

  /** `watches` has what the fields of the callers' watches say. */
  datatype State = State(pollers: map<int, Poller>, polls: map<Poller, PollState>,
                         dirty: seq<Poller>, kernel: map<int, Registration>,
                         watches: map<Watch, WatchState>)

  /** The interest the watchers of a poller add up to. */
  function Wanted(q: PollState): set<Bit> {
    (if q.rd != null then {In, Hup} else {}) + (if q.wr != null then {Out} else {})
  }

  ghost predicate Open(q: PollState) {
    q.fd >= 0
  }

  // ---------- the invariant ----------

  /** The table finds exactly the open pollers; a closed poller has no watcher and is dirty. */
  ghost predicate Indexed(s: State) {
    && (forall fd | fd in s.pollers :: fd >= 0 && s.pollers[fd] in s.polls && s.polls[s.pollers[fd]].fd == fd)
    && (forall p | p in s.polls && Open(s.polls[p]) :: s.polls[p].fd in s.pollers && s.pollers[s.polls[p].fd] == p)
    && (forall p | p in s.polls && !Open(s.polls[p]) :: Closed(s.polls[p]))
  }

  ghost predicate Closed(q: PollState) {
    !Open(q) && q.rd == null && q.wr == null && Err in q.flags
  }

  /** The dirty list holds exactly the allocated pollers whose dirty flag is set, each once. */
  ghost predicate Listed(s: State) {
    && (forall p | p in s.polls :: Err in s.polls[p].flags <==> p in s.dirty)
    && (forall p | p in s.dirty :: p in s.polls)
    && (forall i, j | 0 <= i < j < |s.dirty| :: s.dirty[i] != s.dirty[j])
  }

  /** The kernel knows exactly the open pollers marked so, under their own descriptor. */
  ghost predicate Known(s: State) {
    && (forall fd | fd in s.kernel :: fd in s.pollers && s.kernel[fd].poller == s.pollers[fd])
    && (forall fd | fd in s.pollers && s.pollers[fd] in s.polls ::
          Et in s.polls[s.pollers[fd]].flags <==> fd in s.kernel)
    && (forall p | p in s.polls :: s.polls[p].flags <= {Err, Et})
    && (forall fd | fd in s.kernel :: s.kernel[fd].events - {Et} != {})
  }

  /** A clean open poller with a watcher is registered for exactly what its watchers want. */
  ghost predicate Synced(s: State) {
    forall p | p in s.polls :: InStep(s, p)
  }

  ghost predicate InStep(s: State, p: Poller)
    requires p in s.polls
  {
    var q := s.polls[p];
    Open(q) && Err !in q.flags && Wanted(q) != {} ==>
      q.fd in s.kernel && s.kernel[q.fd] == Registration(p, Wanted(q) + {Et})
  }

  /** Every watcher is one of the callers' watches. */
  ghost predicate Attached(s: State) {
    forall p | p in s.polls ::
      (s.polls[p].rd != null ==> s.polls[p].rd in s.watches) && (s.polls[p].wr != null ==> s.polls[p].wr in s.watches)
  }

  ghost predicate Inv(s: State) {
    Indexed(s) && Listed(s) && Known(s) && Synced(s) && Attached(s)
  }

  /** But for this, the invariant does not depend on the watches. */
  lemma WatchesKeep(s: State, watches: map<Watch, WatchState>)
    requires Inv(s) && s.watches.Keys <= watches.Keys
    ensures Inv(s.(watches := watches))
  {
    var t := s.(watches := watches);
    forall p | p in t.polls ensures InStep(t, p) {
      assert InStep(s, p);
    }
  }

  /** What the kernel holds is safe to report: allocated, open pollers, each under its own descriptor. */
  lemma RegisteredAreAllocated(s: State)
    requires Inv(s)
    ensures forall fd | fd in s.kernel ::
              var p := s.kernel[fd].poller;
              p in s.polls && Open(s.polls[p]) && s.polls[p].fd == fd && s.pollers[fd] == p
    ensures forall p | p in s.polls && !Open(s.polls[p]) ::
              && p in s.dirty && s.polls[p].rd == null && s.polls[p].wr == null
              && forall fd | fd in s.kernel :: s.kernel[fd].poller != p
  {
  }

  const START: State := State(map[], map[], [], map[], map[])

  lemma OpenInTable(s: State, p: Poller, fd: int)
    requires Indexed(s) && (p in s.polls ==> s.polls[p].fd == fd)
    ensures (fd in s.pollers && s.pollers[fd] == p) <==> p in s.polls && Open(s.polls[p])
  {
  }

  // ---------- the operations ----------

  /** `mark_dirty` */
  function MarkDirty(s: State, p: Poller): State
    requires p in s.polls
  {
    var q := s.polls[p];
    if Err in q.flags then s
    else s.(polls := s.polls[p := q.(flags := q.flags + {Err})], dirty := [p] + s.dirty)
  }

  /** The table entry `ev_watch` makes for a descriptor that has none. */
  function AddPoller(s: State, fd: int, p: Poller): State {
    s.(pollers := s.pollers[fd := p], polls := s.polls[p := PollState(fd, null, null, {})])
  }

  /** New watchers for a poller, which becomes dirty. */
  function SetWatchers(s: State, p: Poller, rd: Watch?, wr: Watch?): State
    requires p in s.polls
  {
    MarkDirty(s.(polls := s.polls[p := s.polls[p].(rd := rd, wr := wr)]), p)
  }

  /** `p` is the poller of `fd`, or the one made for it when it has none. */
  ghost predicate Serves(s: State, fd: int, p: Poller) {
    if fd in s.pollers then p == s.pollers[fd] && p in s.polls else p !in s.polls
  }

  /** The poller that serves `fd` notes the watch, and the watch notes the poller. */
  ghost function Served(s: State, w: Watch, fd: int, p: Poller): (u: State)
    requires Serves(s, fd, p) && w in s.watches
    ensures p in u.polls
  {
    var u := if fd in s.pollers then s else AddPoller(s, fd, p);
    u.(watches := u.watches[w := u.watches[w].(poll := p)])
  }

  /** `ev_watch` for watcher `w`, served by poller `p`. */
  ghost function WatchFd(s: State, w: Watch, fd: int, dir: Direction, p: Poller): State
    requires Serves(s, fd, p) && w in s.watches
  {
    var u := Served(s, w, fd, p);
    if dir == Read then SetWatchers(u, p, w, u.polls[p].wr) else SetWatchers(u, p, u.polls[p].rd, w)
  }

  /** `ev_watch` asserts that the slot it fills is free. */
  ghost predicate SlotFree(s: State, fd: int, dir: Direction) {
    fd in s.pollers && s.pollers[fd] in s.polls ==>
      if dir == Read then s.polls[s.pollers[fd]].rd == null else s.polls[s.pollers[fd]].wr == null
  }

  /** `p` is null, or an open poller that `w` watches. */
  ghost predicate Watching(s: State, w: Watch, p: Poller?) {
    p == null || (p in s.polls && Open(s.polls[p]) && (s.polls[p].rd == w || s.polls[p].wr == w))
  }

  /** `w` no longer has a callback or a poller. */
  function Forgotten(s: State, w: Watch): State {
    s.(watches := s.watches[w := WatchState(false, null)])
  }

  /** `ev_unwatch` for watcher `w`. */
  ghost function Unwatched(s: State, w: Watch): State
    requires w in s.watches && Watching(s, w, s.watches[w].poll)
  {
    var p, u := s.watches[w].poll, Forgotten(s, w);
    if p == null then s
    else if s.polls[p].rd == w then SetWatchers(u, p, null, s.polls[p].wr)
    else SetWatchers(u, p, s.polls[p].rd, null)
  }

  /** The caller sets the callback of a watch. */
  function FnSet(s: State, w: Watch): State
    requires w in s.watches
  {
    s.(watches := s.watches[w := s.watches[w].(fn := true)])
  }

  /** A closed poller has left the table and lost its watchers; the kernel forgets the descriptor by itself. */
  function Blanked(s: State, fd: int): State
    requires fd in s.pollers && s.pollers[fd] in s.polls
  {
    var p := s.pollers[fd];
    s.(pollers := s.pollers - {fd}, polls := s.polls[p := s.polls[p].(fd := -1, rd := null, wr := null)],
       kernel := s.kernel - {fd})
  }

  lemma BlankedLists(s: State, fd: int)
    requires fd in s.pollers && s.pollers[fd] in s.polls && Listed(s)
    ensures Listed(Blanked(s, fd))
  {
  }

  /** `ev_close` */
  function CloseFd(s: State, fd: int): State
    requires fd in s.pollers ==> s.pollers[fd] in s.polls
  {
    if fd in s.pollers then MarkDirty(Blanked(s, fd), s.pollers[fd]) else s.(kernel := s.kernel - {fd})
  }

  /** The first dirty poller leaves the dirty list. */
  function Cleaned(s: State): State
    requires s.dirty != [] && s.dirty[0] in s.polls
  {
    var p := s.dirty[0];
    s.(dirty := s.dirty[1..], polls := s.polls[p := s.polls[p].(flags := s.polls[p].flags - {Err})])
  }

  /** A poller that left the dirty list is freed if it is closed; otherwise the kernel hears of it if it must. */
  function Settled(s: State, p: Poller): State
    requires p in s.polls
  {
    var q := s.polls[p];
    var wanted := Wanted(q);
    var known := q.flags * {Hup, In, Out};
    var r := Registration(p, wanted + {Et});
    if q.fd < 0 then
      s.(polls := s.polls - {p})
    else if wanted != {} && Et !in q.flags then
      s.(polls := s.polls[p := q.(flags := q.flags + {Et})], kernel := s.kernel[q.fd := r])
    else if wanted != known then
      s.(kernel := s.kernel[q.fd := r])
    else s
  }

  /** One turn of the flush loop. */
  function FlushFirst(s: State): State
    requires s.dirty != [] && s.dirty[0] in s.polls
  {
    Settled(Cleaned(s), s.dirty[0])
  }

  // ---------- every operation keeps the invariant ----------

  lemma MarkDirtyKeeps(s: State, p: Poller)
    requires Indexed(s) && Listed(s) && Known(s) && Attached(s) && p in s.polls
    requires forall o | o in s.polls && o != p :: InStep(s, o)
    ensures Inv(MarkDirty(s, p))
  {
    hide Indexed, Listed, Known, Attached;
    MarkDirtyLists(s, p);
    MarkDirtyKnows(s, p);
    var t := MarkDirty(s, p);
    forall o | o in t.polls ensures InStep(t, o) {
      if o != p {
        assert InStep(s, o);
      }
    }
  }

  lemma MarkDirtyLists(s: State, p: Poller)
    requires Listed(s) && p in s.polls
    ensures Listed(MarkDirty(s, p))
  {
  }

  lemma MarkDirtyKnows(s: State, p: Poller)
    requires Indexed(s) && Known(s) && Attached(s) && p in s.polls
    ensures Indexed(MarkDirty(s, p)) && Known(MarkDirty(s, p)) && Attached(MarkDirty(s, p))
  {
  }

  lemma AddPollerKeeps(s: State, fd: int, p: Poller)
    requires Inv(s) && fd >= 0 && fd !in s.pollers && p !in s.polls
    ensures Inv(AddPoller(s, fd, p))
  {
    hide Indexed, Listed, Known, Attached;
    AddPollerLists(s, fd, p);
    AddPollerKnows(s, fd, p);
    var t := AddPoller(s, fd, p);
    forall o | o in t.polls ensures InStep(t, o) {
      if o != p {
        assert InStep(s, o);
      }
    }
  }

  lemma AddPollerLists(s: State, fd: int, p: Poller)
    requires Listed(s) && p !in s.polls
    ensures Listed(AddPoller(s, fd, p))
  {
    assert p !in s.dirty;
  }

  lemma AddPollerKnows(s: State, fd: int, p: Poller)
    requires Indexed(s) && Known(s) && Attached(s) && fd >= 0 && fd !in s.pollers && p !in s.polls
    ensures Indexed(AddPoller(s, fd, p)) && Known(AddPoller(s, fd, p)) && Attached(AddPoller(s, fd, p))
  {
  }

  lemma SetWatchersKeeps(s: State, p: Poller, rd: Watch?, wr: Watch?)
    requires Inv(s) && p in s.polls && Open(s.polls[p])
    requires (rd != null ==> rd in s.watches) && (wr != null ==> wr in s.watches)
    ensures Inv(SetWatchers(s, p, rd, wr))
  {
    var t := s.(polls := s.polls[p := s.polls[p].(rd := rd, wr := wr)]);
    forall o | o in t.polls && o != p ensures InStep(t, o) {
      assert InStep(s, o);
    }
    MarkDirtyKeeps(t, p);
  }

  lemma CloseKeeps(s: State, fd: int)
    requires Inv(s)
    ensures fd in s.pollers ==> s.pollers[fd] in s.polls
    ensures Inv(CloseFd(s, fd))
  {
    if fd in s.pollers {
      CloseLists(s, fd);
      CloseIndexes(s, fd);
      CloseKnows(s, fd);
      CloseSyncs(s, fd);
      CloseAttaches(s, fd);
    } else {
      assert s.kernel - {fd} == s.kernel;
    }
  }

  lemma CloseLists(s: State, fd: int)
    requires Indexed(s) && Listed(s) && fd in s.pollers
    ensures Listed(CloseFd(s, fd))
  {
  }

  lemma CloseIndexes(s: State, fd: int)
    requires Indexed(s) && fd in s.pollers
    ensures Indexed(CloseFd(s, fd))
  {
  }

  lemma CloseKnows(s: State, fd: int)
    requires Indexed(s) && Known(s) && fd in s.pollers
    ensures Known(CloseFd(s, fd))
  {
  }

  lemma CloseSyncs(s: State, fd: int)
    requires Indexed(s) && Synced(s) && fd in s.pollers
    ensures Synced(CloseFd(s, fd))
  {
    var t := CloseFd(s, fd);
    forall o | o in t.polls ensures InStep(t, o) {
      assert InStep(s, o);
    }
  }

  lemma CloseAttaches(s: State, fd: int)
    requires Indexed(s) && Attached(s) && fd in s.pollers
    ensures Attached(CloseFd(s, fd))
  {
  }

  lemma FlushFirstKeeps(s: State)
    requires Inv(s) && s.dirty != []
    ensures s.dirty[0] in s.polls && Inv(FlushFirst(s))
  {
    FlushLists(s);
    FlushIndexes(s);
    FlushKnows(s);
    FlushSyncs(s);
    FlushAttaches(s);
  }

  lemma FlushAttaches(s: State)
    requires Attached(s) && s.dirty != [] && s.dirty[0] in s.polls
    ensures Attached(FlushFirst(s))
  {
  }

  lemma FlushLists(s: State)
    requires Listed(s) && s.dirty != []
    ensures s.dirty[0] in s.polls && Listed(FlushFirst(s))
  {
    var t := FlushFirst(s);
    forall p | p in t.polls ensures Err in t.polls[p].flags <==> p in t.dirty {
      assert p in s.dirty <==> p == s.dirty[0] || p in s.dirty[1..];
    }
    forall p | p in t.dirty ensures p in t.polls {
      assert p in s.dirty;
    }
  }

  lemma FlushIndexes(s: State)
    requires Indexed(s) && s.dirty != [] && s.dirty[0] in s.polls
    ensures Indexed(FlushFirst(s))
  {
  }

  lemma FlushKnows(s: State)
    requires Indexed(s) && Known(s) && s.dirty != [] && s.dirty[0] in s.polls
    ensures Known(FlushFirst(s))
  {
    CleanedKnows(s);
    SettledKnows(Cleaned(s), s.dirty[0]);
  }

  lemma CleanedKnows(s: State)
    requires Indexed(s) && Known(s) && s.dirty != [] && s.dirty[0] in s.polls
    ensures Known(Cleaned(s))
    ensures forall p | p in s.polls && Open(s.polls[p]) :: s.polls[p].fd in s.pollers && s.pollers[s.polls[p].fd] == p
  {
  }

  lemma SettledKnows(s: State, p: Poller)
    requires Known(s) && p in s.polls
    requires forall fd | fd in s.pollers :: s.pollers[fd] in s.polls && s.polls[s.pollers[fd]].fd == fd
    requires Open(s.polls[p]) ==> s.polls[p].fd in s.pollers && s.pollers[s.polls[p].fd] == p
    ensures Known(Settled(s, p))
  {
    assert s.polls[p].flags * {Hup, In, Out} == {};
    assert Wanted(s.polls[p]) + {Et} - {Et} == Wanted(s.polls[p]);
  }

  lemma FlushSyncs(s: State)
    requires Indexed(s) && Known(s) && Synced(s) && s.dirty != [] && s.dirty[0] in s.polls
    ensures Synced(FlushFirst(s))
  {
    var t, p := FlushFirst(s), s.dirty[0];
    assert s.polls[p].flags * {Hup, In, Out} == {};
    forall o | o in t.polls ensures InStep(t, o) {
      assert InStep(s, o);
    }
  }

  // ---------- the flush ----------

  /** What the flush changes and leaves: it frees the closed pollers and empties the dirty list. */
  ghost predicate Flushing(before: State, s: State) {
    && s.pollers == before.pollers && s.watches == before.watches
    && (forall p | p in s.polls :: p in before.polls && SameWatchers(before.polls[p], s.polls[p]))
    && (forall p | p in before.polls && p !in s.polls :: !Open(before.polls[p]))
    && (forall fd | fd in before.kernel :: fd in s.kernel)
  }

  ghost predicate SameWatchers(q: PollState, r: PollState) {
    q.fd == r.fd && q.rd == r.rd && q.wr == r.wr
  }

  lemma FlushingTurn(s: State)
    requires Inv(s) && s.dirty != [] && s.dirty[0] in s.polls
    ensures Flushing(s, FlushFirst(s))
  {
    hide Listed, Synced, Attached;
  }

  lemma FlushingOn(a: State, b: State, c: State)
    requires Flushing(a, b) && Flushing(b, c)
    ensures Flushing(a, c)
  {
  }

  /** An empty dirty list: nothing closed is left, and every watched poller is in step. */
  lemma Flushed(before: State, s: State)
    requires Inv(s) && s.dirty == [] && Flushing(before, s)
    ensures forall p | p in before.polls :: p in s.polls <==> Open(before.polls[p])
    ensures forall fd | fd in s.pollers :: Watched(s, fd) ==> Exact(s, fd)
    ensures forall fd | fd in s.kernel && !Watched(s, fd) :: !Exact(s, fd)
  {
    forall fd | fd in s.pollers && Watched(s, fd) ensures Exact(s, fd) {
      assert InStep(s, s.pollers[fd]);
    }
    forall fd | fd in s.kernel && !Watched(s, fd) ensures !Exact(s, fd) {
      var q := s.polls[s.pollers[fd]];
      assert Wanted(q) + {Et} - {Et} == {};
    }
    forall p | p in before.polls ensures p in s.polls <==> Open(before.polls[p]) {
      assert p in s.polls && !Open(s.polls[p]) ==> p in s.dirty;
    }
  }

  ghost predicate Watched(s: State, fd: int) {
    fd in s.pollers && s.pollers[fd] in s.polls && Wanted(s.polls[s.pollers[fd]]) != {}
  }

  /** The kernel reports for `fd` exactly what the watchers of its poller want. */
  ghost predicate Exact(s: State, fd: int) {
    && fd in s.pollers && s.pollers[fd] in s.polls && fd in s.kernel
    && s.kernel[fd] == Registration(s.pollers[fd], Wanted(s.polls[s.pollers[fd]]) + {Et})
  }

  /** What it means to be watched, and to be registered exactly: which events the kernel reports, to whom. */
  lemma ExactIs(s: State, fd: int)
    requires fd in s.pollers && s.pollers[fd] in s.polls
    ensures var q := s.polls[s.pollers[fd]];
            && (Watched(s, fd) <==> q.rd != null || q.wr != null)
            && (Exact(s, fd) <==>
                && fd in s.kernel && s.kernel[fd].poller == s.pollers[fd]
                && var ev := s.kernel[fd].events;
                   && (In in ev <==> q.rd != null) && (Hup in ev <==> q.rd != null)
                   && (Out in ev <==> q.wr != null) && Et in ev && Err !in ev)
  {
    var q := s.polls[s.pollers[fd]];
    if fd in s.kernel {
      SameEvents(s.kernel[fd].events, q);
    }
  }

  lemma SameEvents(ev: set<Bit>, q: PollState)
    ensures ev == Wanted(q) + {Et} <==>
              && (In in ev <==> q.rd != null) && (Hup in ev <==> q.rd != null)
              && (Out in ev <==> q.wr != null) && Et in ev && Err !in ev
  {
    var wanted := Wanted(q) + {Et};
    if (In in ev <==> In in wanted) && (Hup in ev <==> Hup in wanted) && (Out in ev <==> Out in wanted)
       && Et in ev && Err !in ev {
      forall b: Bit ensures b in ev <==> b in wanted {
        match b {
          case In =>
          case Out =>
          case Err =>
          case Hup =>
          case Et =>
        }
      }
      assert ev == wanted;
    }
  }

  /** The turn's system call is one the kernel accepts: add for a new descriptor, modify for a known one. */
  lemma CtlIsAccepted(s: State)
    requires Inv(s) && s.dirty != [] && s.dirty[0] in s.polls
    ensures var q := Cleaned(s).polls[s.dirty[0]];
            && q.flags * {Hup, In, Out} == {}
            && (Open(q) ==> (Et in q.flags <==> q.fd in s.kernel))
  {
  }

  lemma TailIsOthers(s: State)
    requires Listed(s) && s.dirty != []
    ensures s.dirty[0] in s.polls && s.dirty[0] !in s.dirty[1..]
  {
  }

  /** The whole flush. */
  ghost function FlushAll(s: State): State
    requires Inv(s)
    decreases |s.dirty|
  {
    if s.dirty == [] then s
    else
      FlushFirstKeeps(s);
      FlushAll(FlushFirst(s))
  }

  lemma FlushAllIs(s: State)
    requires Inv(s)
    ensures s.dirty == [] ==> FlushAll(s) == s
    ensures s.dirty != [] ==> s.dirty[0] in s.polls && Inv(FlushFirst(s)) && FlushAll(s) == FlushAll(FlushFirst(s))
  {
    hide Inv, FlushFirst;
    if s.dirty != [] {
      FlushFirstKeeps(s);
    }
  }

  lemma {:induction false} FlushAllFlushes(s: State)
    requires Inv(s)
    ensures Inv(FlushAll(s)) && FlushAll(s).dirty == [] && Flushing(s, FlushAll(s))
    decreases |s.dirty|
  {
    hide Inv, Flushing, FlushFirst;
    FlushingNot(s);
    if s.dirty != [] {
      FlushFirstKeeps(s);
      FlushFirstShrinks(s);
      FlushingTurn(s);
      FlushAllFlushes(FlushFirst(s));
      FlushingOn(s, FlushFirst(s), FlushAll(s));
    }
  }

  lemma FlushingNot(s: State)
    ensures Flushing(s, s)
  {
  }

  lemma FlushFirstShrinks(s: State)
    requires s.dirty != [] && s.dirty[0] in s.polls
    ensures FlushFirst(s).dirty == s.dirty[1..] && FlushFirst(s).polls.Keys <= s.polls.Keys
  {
  }

  // ---------- runs ----------

  /** A step of a caller or of the loop; `OpNone` is a call that was not made. */
  datatype Op =
    | OpSet(w: Watch)
    | OpWatch(w: Watch, fd: int, dir: Direction, p: Poller)
    | OpUnwatch(w: Watch)
    | OpClose(fd: int)
    | OpFlush
    | OpNone

  /** What the source asks of the callers of its operations. */
  ghost predicate Legal(s: State, op: Op) {
    match op
    case OpSet(w) => w in s.watches
    case OpWatch(w, fd, dir, p) =>
      fd >= 0 && w in s.watches && s.watches[w].fn && Serves(s, fd, p) && SlotFree(s, fd, dir)
    case OpUnwatch(w) => w in s.watches && Watching(s, w, s.watches[w].poll)
    case _ => true
  }

  ghost function Next(s: State, op: Op): State
    requires Inv(s) && Legal(s, op)
  {
    match op
    case OpSet(w) => FnSet(s, w)
    case OpWatch(w, fd, dir, p) => WatchFd(s, w, fd, dir, p)
    case OpUnwatch(w) => Unwatched(s, w)
    case OpClose(fd) => CloseFd(s, fd)
    case OpFlush => FlushAll(s)
    case OpNone => s
  }

  lemma NextKeeps(s: State, op: Op)
    requires Inv(s) && Legal(s, op)
    ensures Inv(Next(s, op))
  {
    hide Inv, SetWatchers, CloseFd, FlushAll, FnSet;
    match op {
      case OpSet(w) => FnSetKeeps(s, w);
      case OpWatch(w, fd, dir, p) => WatchKeeps(s, w, fd, dir, p);
      case OpUnwatch(w) => UnwatchKeeps(s, w);
      case OpClose(fd) => CloseKeeps(s, fd);
      case OpFlush => FlushAllFlushes(s);
      case OpNone =>
    }
  }

  lemma FnSetKeeps(s: State, w: Watch)
    requires Inv(s) && w in s.watches
    ensures Inv(FnSet(s, w))
  {
    hide Inv;
    WatchesKeep(s, FnSet(s, w).watches);
  }

  /** `ev_watch`: the poller of the descriptor gets the watch in one slot and becomes dirty; nothing else changes. */
  lemma WatchIsExact(s: State, w: Watch, fd: int, dir: Direction, p: Poller)
    requires Inv(s) && Legal(s, OpWatch(w, fd, dir, p))
    ensures var t := Next(s, OpWatch(w, fd, dir, p));
            var was := if p in s.polls then s.polls[p] else PollState(fd, null, null, {});
            && t.pollers == s.pollers[fd := p] && t.kernel == s.kernel
            && t.watches == s.watches[w := WatchState(true, p)]
            && p in t.polls && t.polls == s.polls[p := t.polls[p]] && p in t.dirty
            && t.polls[p].fd == fd && t.polls[p].flags == was.flags + {Err}
            && t.polls[p].rd == (if dir == Read then w else was.rd)
            && t.polls[p].wr == (if dir == Write then w else was.wr)
  {
    hide Known, Synced, Attached;
    assert fd in s.pollers ==> s.pollers[fd := p] == s.pollers;
  }

  /** `ev_unwatch`: the watch's slot is cleared, its poller becomes dirty, and the watch forgets both. */
  lemma UnwatchIsExact(s: State, w: Watch)
    requires Inv(s) && Legal(s, OpUnwatch(w)) && s.watches[w].poll != null
    ensures var t, p := Next(s, OpUnwatch(w)), s.watches[w].poll;
            && t.pollers == s.pollers && t.kernel == s.kernel && t.watches == s.watches[w := WatchState(false, null)]
            && p in s.polls && p in t.polls && t.polls == s.polls[p := t.polls[p]] && p in t.dirty
            && t.polls[p].fd == s.polls[p].fd && t.polls[p].flags == s.polls[p].flags + {Err}
            && (if s.polls[p].rd == w then t.polls[p].rd == null && t.polls[p].wr == s.polls[p].wr
                else s.polls[p].wr == w && t.polls[p].rd == s.polls[p].rd && t.polls[p].wr == null)
  {
    hide Known, Synced, Attached;
  }

  /** `ev_close`: the descriptor has no poller any more, which waits blank on the dirty list to be freed. */
  lemma CloseIsExact(s: State, fd: int)
    requires Inv(s)
    ensures fd in s.pollers ==> s.pollers[fd] in s.polls
    ensures var t := Next(s, OpClose(fd));
            && t.pollers == s.pollers - {fd} && t.kernel == s.kernel - {fd} && t.watches == s.watches
            && (fd !in s.pollers ==> t.polls == s.polls && t.dirty == s.dirty)
            && (fd in s.pollers ==>
                var p := s.pollers[fd];
                t.polls == s.polls[p := PollState(-1, null, null, s.polls[p].flags + {Err})] && p in t.dirty)
  {
    hide Known, Synced, Attached;
    assert fd !in s.pollers ==> s.pollers - {fd} == s.pollers;
    if fd in s.pollers {
      var flags := s.polls[s.pollers[fd]].flags;
      assert Err in flags ==> flags + {Err} == flags;
    }
  }

  lemma WatchKeeps(s: State, w: Watch, fd: int, dir: Direction, p: Poller)
    requires Inv(s) && fd >= 0 && Serves(s, fd, p) && w in s.watches
    ensures Inv(WatchFd(s, w, fd, dir, p))
  {
    hide Inv, SetWatchers, Served;
    ServedKeeps(s, w, fd, p);
    var u := Served(s, w, fd, p);
    SetWatchersKeeps(u, p, if dir == Read then w else u.polls[p].rd, if dir == Read then u.polls[p].wr else w);
  }

  lemma UnwatchKeeps(s: State, w: Watch)
    requires Inv(s) && w in s.watches && Watching(s, w, s.watches[w].poll)
    ensures Inv(Unwatched(s, w))
  {
    hide Inv, SetWatchers;
    var p, u := s.watches[w].poll, Forgotten(s, w);
    if p != null {
      WatchesKeep(s, u.watches);
      AttachedAt(u, p);
      SetWatchersKeeps(u, p, null, s.polls[p].wr);
      SetWatchersKeeps(u, p, s.polls[p].rd, null);
    }
  }

  lemma AttachedAt(s: State, p: Poller)
    requires Inv(s) && p in s.polls
    ensures s.polls[p].rd != null ==> s.polls[p].rd in s.watches
    ensures s.polls[p].wr != null ==> s.polls[p].wr in s.watches
  {
  }

  lemma ServedKeeps(s: State, w: Watch, fd: int, p: Poller)
    requires Inv(s) && fd >= 0 && Serves(s, fd, p) && w in s.watches
    ensures var u := Served(s, w, fd, p);
            && Inv(u) && Open(u.polls[p]) && w in u.watches
            && (u.polls[p].rd != null ==> u.polls[p].rd in u.watches)
            && (u.polls[p].wr != null ==> u.polls[p].wr in u.watches)
  {
    hide Listed, Known, Synced;
    if fd !in s.pollers {
      AddPollerKeeps(s, fd, p);
    }
    var u := if fd in s.pollers then s else AddPoller(s, fd, p);
    WatchesKeep(u, u.watches[w := u.watches[w].(poll := p)]);
  }

  ghost predicate Runs(s: State, ops: seq<Op>)
    requires Inv(s)
    decreases |ops|
  {
    ops == [] || (Legal(s, ops[0]) && (NextKeeps(s, ops[0]); Runs(Next(s, ops[0]), ops[1..])))
  }

  ghost function After(s: State, ops: seq<Op>): State
    requires Inv(s) && Runs(s, ops)
    decreases |ops|
  {
    if ops == [] then s else NextKeeps(s, ops[0]); After(Next(s, ops[0]), ops[1..])
  }

  lemma {:induction false} RunKeeps(s: State, ops: seq<Op>)
    requires Inv(s) && Runs(s, ops)
    ensures Inv(After(s, ops))
    decreases |ops|
  {
    hide Inv, Legal, Next;
    if ops != [] {
      NextKeeps(s, ops[0]);
      RunKeeps(Next(s, ops[0]), ops[1..]);
    }
  }

  lemma RunOne(s: State, op: Op)
    requires Inv(s)
    ensures Runs(s, [op]) <==> Legal(s, op)
    ensures Legal(s, op) ==> After(s, [op]) == Next(s, op)
  {
    hide Inv, Legal, Next;
    assert [op][0] == op && [op][1..] == [];
    if Legal(s, op) {
      NextKeeps(s, op);
      assert Runs(Next(s, op), []);
    }
  }

  lemma {:induction false} RunOn(s: State, ops: seq<Op>, op: Op)
    requires Inv(s) && Runs(s, ops) && Inv(After(s, ops)) && Legal(After(s, ops), op)
    ensures Runs(s, ops + [op]) && After(s, ops + [op]) == Next(After(s, ops), op)
    decreases |ops|
  {
    hide Inv, Legal, Next;
    if ops == [] {
      NextKeeps(s, op);
      assert (ops + [op])[1..] == [];
    } else {
      NextKeeps(s, ops[0]);
      RunKeeps(Next(s, ops[0]), ops[1..]);
      RunOn(Next(s, ops[0]), ops[1..], op);
      assert (ops + [op])[1..] == ops[1..] + [op];
    }
  }

  ghost predicate WithoutFlush(ops: seq<Op>) {
    forall i | 0 <= i < |ops| :: !ops[i].OpFlush?
  }

  /** Before the next flush nothing is freed, and what is closed stays closed. */
  ghost predicate Retained(s: State, t: State) {
    forall p | p in s.polls :: p in t.polls && (Open(s.polls[p]) || Closed(t.polls[p]))
  }

  lemma StepRetains(s: State, op: Op)
    requires Inv(s) && Legal(s, op) && !op.OpFlush?
    ensures Retained(s, Next(s, op))
  {
    hide Listed, Known, Synced, Attached, FlushAll, WatchFd, Unwatched, CloseFd;
    match op {
      case OpWatch(w, fd, dir, p) => WatchRetains(s, w, fd, dir, p);
      case OpUnwatch(w) => UnwatchRetains(s, w);
      case OpClose(fd) => CloseRetains(s, fd);
      case _ =>
    }
  }

  lemma WatchRetains(s: State, w: Watch, fd: int, dir: Direction, p: Poller)
    requires Inv(s) && fd >= 0 && Serves(s, fd, p) && w in s.watches
    ensures Retained(s, WatchFd(s, w, fd, dir, p))
  {
    hide Listed, Known, Synced, Attached;
  }

  lemma UnwatchRetains(s: State, w: Watch)
    requires Inv(s) && w in s.watches && Watching(s, w, s.watches[w].poll)
    ensures Retained(s, Unwatched(s, w))
  {
    hide Listed, Known, Synced, Attached;
  }

  lemma CloseRetains(s: State, fd: int)
    requires Inv(s)
    ensures fd in s.pollers ==> s.pollers[fd] in s.polls
    ensures Retained(s, CloseFd(s, fd))
  {
    hide Listed, Known, Synced, Attached;
  }

  /**
  Deferred freeing: until the next flush, whatever is watched, unwatched and closed in between,
  every poller stays allocated, so every pointer in a batch of events stays good, and a closed
  poller stays closed, without watchers, even when its descriptor is used again.
  */
  lemma {:induction false} RunRetains(s: State, ops: seq<Op>)
    requires Inv(s) && Runs(s, ops) && WithoutFlush(ops)
    ensures Retained(s, After(s, ops))
    decreases |ops|
  {
    hide Inv, Legal, Next, Closed;
    if ops == [] {
      RetainedNot(s);
    } else {
      NextKeeps(s, ops[0]);
      StepRetains(s, ops[0]);
      assert WithoutFlush(ops[1..]);
      RunRetains(Next(s, ops[0]), ops[1..]);
      RetainedOn(s, Next(s, ops[0]), After(s, ops));
    }
  }

  lemma RetainedNot(s: State)
    requires Inv(s)
    ensures Retained(s, s)
  {
  }

  lemma RetainedOn(a: State, b: State, c: State)
    requires Retained(a, b) && Retained(b, c)
    ensures Retained(a, c)
  {
  }

  /** The flush frees a closed poller, and only such: it is allocated before and not after. */
  lemma FlushFrees(s: State, p: Poller)
    requires Inv(s) && p in s.polls
    ensures p in FlushAll(s).polls <==> Open(s.polls[p])
    ensures p in FlushAll(s).polls ==> SameWatchers(s.polls[p], FlushAll(s).polls[p])
  {
    hide Indexed, Known, Synced, FlushAll;
    FlushAllFlushes(s);
    Flushed(s, FlushAll(s));
  }

  // ---------- watches without a callback ----------

  function Slot(q: PollState, dir: Direction): Watch? {
    if dir == Read then q.rd else q.wr
  }

  /** Whoever waits in a slot has a callback, which the dispatch loop calls unseen. */
  ghost predicate Armed(s: State) {
    forall p, dir: Direction | p in s.polls && Slot(s.polls[p], dir) != null ::
      Slot(s.polls[p], dir) in s.watches && s.watches[Slot(s.polls[p], dir)].fn
  }

  /** Slot `dir` of `p` is the only one that `w` can be in. */
  ghost predicate OnlyIn(s: State, w: Watch, p: Poller, dir: Direction) {
    forall o, d: Direction | o in s.polls && Slot(s.polls[o], d) == w :: o == p && d == dir
  }

  /** No watch is in two slots. */
  ghost predicate Alone(s: State) {
    forall p, dir: Direction | p in s.polls && Slot(s.polls[p], dir) != null :: OnlyIn(s, Slot(s.polls[p], dir), p, dir)
  }

  ghost predicate Idle(s: State, w: Watch) {
    forall o, d: Direction | o in s.polls :: Slot(s.polls[o], d) != w
  }

  /** The slot that `ev_unwatch` clears. */
  function SlotOf(q: PollState, w: Watch): Direction {
    if q.rd == w then Read else Write
  }

  /**
  `ev_unwatch` takes away the callback of the watch but clears one slot only: every waiting watch
  still has a callback if and only if the watch was in no other slot.
  */
  lemma UnwatchArms(s: State, w: Watch)
    requires Inv(s) && Armed(s) && Legal(s, OpUnwatch(w)) && s.watches[w].poll != null
    ensures s.watches[w].poll in s.polls
    ensures Armed(Unwatched(s, w)) <==> OnlyIn(s, w, s.watches[w].poll, SlotOf(s.polls[s.watches[w].poll], w))
  {
    hide Inv;
    var p, t := s.watches[w].poll, Unwatched(s, w);
    var dir := SlotOf(s.polls[p], w);
    forall o, d: Direction | o in s.polls
      ensures o in t.polls && Slot(t.polls[o], d) == if o == p && d == dir then null else Slot(s.polls[o], d)
    {
    }
    forall o, d: Direction | o in s.polls && Slot(s.polls[o], d) == w && !(o == p && d == dir) ensures !Armed(t) {
      assert Slot(t.polls[o], d) == w;
    }
  }

  /** Every watch that begins to wait along the run waits nowhere else. */
  ghost predicate Singly(s: State, ops: seq<Op>)
    requires Inv(s) && Runs(s, ops)
    decreases |ops|
  {
    ops == [] ||
    ((ops[0].OpWatch? ==> Idle(s, ops[0].w)) && (NextKeeps(s, ops[0]); Singly(Next(s, ops[0]), ops[1..])))
  }

  /** A caller that watches with idle watches only never leaves a waiting watch without a callback. */
  lemma {:induction false} RunArmed(s: State, ops: seq<Op>)
    requires Inv(s) && Armed(s) && Alone(s) && Runs(s, ops) && Singly(s, ops)
    ensures Armed(After(s, ops)) && Alone(After(s, ops))
    decreases |ops|
  {
    hide Inv, Legal, Next, Armed, Alone, Idle;
    if ops != [] {
      NextKeeps(s, ops[0]);
      StepArms(s, ops[0]);
      RunArmed(Next(s, ops[0]), ops[1..]);
    }
  }

  lemma StepArms(s: State, op: Op)
    requires Inv(s) && Armed(s) && Alone(s) && Legal(s, op) && (op.OpWatch? ==> Idle(s, op.w))
    ensures Armed(Next(s, op)) && Alone(Next(s, op))
  {
    hide Inv, Armed, Alone, Idle, FlushAll, WatchFd, Unwatched, CloseFd, FnSet;
    match op {
      case OpSet(w) => FnSetArms(s, w);
      case OpWatch(w, fd, dir, p) => WatchArms(s, w, fd, dir, p);
      case OpUnwatch(w) => UnwatchArmsAlone(s, w);
      case OpClose(fd) => CloseArms(s, fd);
      case OpFlush => FlushArms(s);
      case OpNone =>
    }
  }

  lemma FnSetArms(s: State, w: Watch)
    requires Armed(s) && Alone(s) && w in s.watches
    ensures Armed(FnSet(s, w)) && Alone(FnSet(s, w))
  {
    var t := FnSet(s, w);
    assert forall q: Poller, d: Direction, o | q in s.polls && OnlyIn(s, o, q, d) :: OnlyIn(t, o, q, d);
  }

  lemma WatchArms(s: State, w: Watch, fd: int, dir: Direction, p: Poller)
    requires Inv(s) && Armed(s) && Alone(s) && Legal(s, OpWatch(w, fd, dir, p)) && Idle(s, w)
    ensures Armed(WatchFd(s, w, fd, dir, p)) && Alone(WatchFd(s, w, fd, dir, p))
  {
    hide Listed, Known, Synced, Attached;
    var t := WatchFd(s, w, fd, dir, p);
    assert forall o, d: Direction | o in t.polls ::
      Slot(t.polls[o], d) == if o == p && d == dir then w else if o in s.polls then Slot(s.polls[o], d) else null;
    assert OnlyIn(t, w, p, dir);
    forall q, d: Direction | q in t.polls && Slot(t.polls[q], d) != null ensures OnlyIn(t, Slot(t.polls[q], d), q, d) {
      if !(q == p && d == dir) {
        assert OnlyIn(s, Slot(s.polls[q], d), q, d);
      }
    }
  }

  /** Fewer slots are filled, by the same watches, which keep their callbacks. */
  lemma FewerArmed(s: State, t: State)
    requires Armed(s) && Alone(s)
    requires forall p | p in t.polls :: p in s.polls
    requires forall p, d: Direction | p in t.polls && Slot(t.polls[p], d) != null ::
               Slot(t.polls[p], d) == Slot(s.polls[p], d)
    requires forall p, d: Direction | p in t.polls && Slot(t.polls[p], d) != null ::
               Slot(t.polls[p], d) in t.watches && (Slot(t.polls[p], d) in s.watches ==>
                 t.watches[Slot(t.polls[p], d)].fn == s.watches[Slot(t.polls[p], d)].fn)
    ensures Armed(t) && Alone(t)
  {
    forall p, d: Direction | p in t.polls && Slot(t.polls[p], d) != null ensures OnlyIn(t, Slot(t.polls[p], d), p, d) {
      assert OnlyIn(s, Slot(s.polls[p], d), p, d);
    }
  }

  lemma UnwatchArmsAlone(s: State, w: Watch)
    requires Inv(s) && Armed(s) && Alone(s) && Legal(s, OpUnwatch(w))
    ensures Armed(Unwatched(s, w)) && Alone(Unwatched(s, w))
  {
    hide Inv;
    var p, t := s.watches[w].poll, Unwatched(s, w);
    if p != null {
      var dir := SlotOf(s.polls[p], w);
      assert Slot(s.polls[p], dir) == w;
      assert OnlyIn(s, w, p, dir);
      forall o, d: Direction | o in t.polls && Slot(t.polls[o], d) != null
        ensures Slot(t.polls[o], d) == Slot(s.polls[o], d) != w
      {
        assert !(o == p && d == dir);
        assert Slot(t.polls[o], d) == Slot(s.polls[o], d);
      }
      SlotsKnown(s);
      FewerArmed(s, t);
    }
  }

  lemma CloseArms(s: State, fd: int)
    requires Inv(s) && Armed(s) && Alone(s)
    ensures fd in s.pollers ==> s.pollers[fd] in s.polls
    ensures Armed(CloseFd(s, fd)) && Alone(CloseFd(s, fd))
  {
    hide Listed, Known, Synced, Attached, Armed, Alone;
    assert forall p, d: Direction | p in s.polls && Slot(s.polls[p], d) != null ::
             Slot(s.polls[p], d) in s.watches by { SlotsKnown(s); }
    FewerArmed(s, CloseFd(s, fd));
  }

  lemma SlotsKnown(s: State)
    requires Armed(s)
    ensures forall p, d: Direction | p in s.polls && Slot(s.polls[p], d) != null :: Slot(s.polls[p], d) in s.watches
  {
  }

  lemma FlushArms(s: State)
    requires Inv(s) && Armed(s) && Alone(s)
    ensures Armed(FlushAll(s)) && Alone(FlushAll(s))
  {
    hide Inv, FlushAll, Armed, Alone;
    FlushAllFlushes(s);
    SlotsKnown(s);
    FewerArmed(s, FlushAll(s));
  }

  // ---------- what goes wrong outside of the rules ----------

  /**
  A descriptor that is negative: the first flush frees its poller, which looks closed, and the
  table still names it.  For any other the table names an allocated one.
  */
  lemma NegativeDangles(s: State, w: Watch, fd: int, dir: Direction, p: Poller)
    requires Inv(s) && w in s.watches && Serves(s, fd, p) && SlotFree(s, fd, dir)
    requires fd !in s.pollers && s.dirty == []
    ensures var u := WatchFd(s, w, fd, dir, p);
            && u.dirty == [p] && p in u.polls
            && var t := FlushFirst(u);
               fd in t.pollers && t.pollers[fd] == p && (p in t.polls <==> fd >= 0)
  {
    hide Inv;
  }

  /** After a close, `ev_unwatch` may be called for exactly the watches of other descriptors. */
  lemma CloseStrands(s: State, fd: int, w: Watch)
    requires Inv(s) && w in s.watches && s.watches[w].poll != null && Legal(s, OpUnwatch(w))
    ensures Legal(s, OpClose(fd)) && w in Next(s, OpClose(fd)).watches
    ensures Legal(Next(s, OpClose(fd)), OpUnwatch(w)) <==> !(fd in s.pollers && s.pollers[fd] == s.watches[w].poll)
  {
    hide Listed, Known, Synced, Attached;
  }

  /** One dirty poller: the flush is one turn. */
  lemma FlushOne(s: State)
    requires Inv(s) && |s.dirty| == 1
    ensures s.dirty[0] in s.polls && FlushAll(s) == FlushFirst(s) && Inv(FlushFirst(s))
  {
    hide Inv, FlushFirst;
    FlushAllIs(s);
    FlushFirstShrinks(s);
    FlushAllIs(FlushFirst(s));
  }

  /** One watch, and what it waits for. */
  function Lone(w: Watch): State {
    START.(watches := map[w := WatchState(true, null)])
  }

  /** A descriptor that is watched for the first time. */
  lemma WatchedOnce(w: Watch, fd: int, dir: Direction, p: Poller)
    requires fd >= 0
    ensures var s, op := Lone(w), OpWatch(w, fd, dir, p);
            && Inv(s) && Legal(s, op)
            && var t := Next(s, op);
               && t.pollers == map[fd := p] && t.dirty == [p] && t.kernel == map[]
               && t.watches == map[w := WatchState(true, p)]
               && var q := PollState(fd, if dir == Read then w else null, if dir == Read then null else w, {Err});
                  t.polls == map[p := q] && t.polls[p] == q
  {
    assert {} + {Err} == {Err};
  }

  /** Its first flush. */
  lemma FlushedOnce(s: State, fd: int, p: Poller)
    requires Inv(s) && s.pollers == map[fd := p] && s.dirty == [p] && s.kernel == map[] && fd >= 0
    requires s.polls.Keys == {p} && s.polls[p].fd == fd && s.polls[p].flags == {Err} && Wanted(s.polls[p]) != {}
    ensures var t := FlushAll(s);
            && t.pollers == map[fd := p] && t.dirty == [] && t.watches == s.watches
            && t.polls == map[p := s.polls[p].(flags := {Et})]
            && t.kernel == map[fd := Registration(p, Wanted(s.polls[p]) + {Et})]
  {
    FlushOne(s);
    assert {Err} - {Err} + {Et} == {Et};
    assert FlushFirst(s).polls.Keys == {p};
  }

  /**
  The stale interest, from the start: a descriptor is watched, flushed, unwatched and flushed.  Its
  poller wants nothing then, and the kernel still reports for what the watch wanted.
  */
  lemma StaleInterest(w: Watch, fd: int, dir: Direction, p: Poller)
    requires fd >= 0
    ensures var s := Lone(w);
            var ops := [OpWatch(w, fd, dir, p), OpFlush, OpUnwatch(w), OpFlush];
            && Inv(s) && Runs(s, ops)
            && var t := After(s, ops);
               && t.dirty == [] && p in t.polls && t.polls[p].fd == fd && Wanted(t.polls[p]) == {}
               && fd in t.kernel && t.kernel[fd] == Registration(p, (if dir == Read then {In, Hup} else {Out}) + {Et})
  {
    hide *;
    var s := Lone(w);
    var a, b, c := OpWatch(w, fd, dir, p), OpFlush, OpUnwatch(w);
    WatchedOnce(w, fd, dir, p);
    NextKeeps(s, a);
    var s1 := Next(s, a);
    WantedNow(s1.polls[p]);
    FlushLegal(s1);
    FlushedOnce(s1, fd, p);
    NextKeeps(s1, b);
    var s2 := Next(s1, b);
    UnwatchedOnce(s2, w, fd, p);
    NextKeeps(s2, c);
    var s3 := Next(s2, c);
    FlushLegal(s3);
    FlushUnwanted(s3, p);
    RunOne(s, a);
    RunOn(s, [a], b);
    RunOn(s, [a] + [b], c);
    RunOn(s, [a] + [b] + [c], b);
    assert [a, b, c, b] == [a] + [b] + [c] + [b];
  }

  lemma WantedNow(q: PollState)
    ensures Wanted(q) == (if q.rd != null then {In, Hup} else {}) + (if q.wr != null then {Out} else {})
    ensures q.rd != null && q.wr == null ==> Wanted(q) == {In, Hup}
    ensures q.rd == null && q.wr != null ==> Wanted(q) == {Out}
  {
  }

  /**
  A waiting watch without a callback, from the start: one watch waits for both directions of a
  descriptor and is unwatched.
  */
  lemma TwoSlots(w: Watch, fd: int, p: Poller)
    requires fd >= 0
    ensures var s := Lone(w);
            var ops := [OpWatch(w, fd, Read, p), OpWatch(w, fd, Write, p), OpUnwatch(w)];
            Inv(s) && Armed(s) && Runs(s, ops) && !Armed(After(s, ops))
  {
    hide *;
    var s, a, b, c := Lone(w), OpWatch(w, fd, Read, p), OpWatch(w, fd, Write, p), OpUnwatch(w);
    WatchedOnce(w, fd, Read, p);
    NextKeeps(s, a);
    LoneArmed(w);
    WatchedTwice(Next(s, a), w, fd, p);
    NextKeeps(Next(s, a), b);
    RunOne(s, a);
    RunOn(s, [a], b);
    RunOn(s, [a] + [b], c);
    assert [a, b, c] == [a] + [b] + [c];
  }

  lemma LoneArmed(w: Watch)
    ensures Armed(Lone(w))
  {
  }

  /** The watch of the reading slot takes the writing slot too, and loses the one when it is unwatched. */
  lemma WatchedTwice(s: State, w: Watch, fd: int, p: Poller)
    requires Inv(s) && fd >= 0 && s.pollers == map[fd := p] && s.watches == map[w := WatchState(true, p)]
    requires s.polls == map[p := PollState(fd, w, null, {Err})]
    ensures var op := OpWatch(w, fd, Write, p);
            && Legal(s, op)
            && var t := Next(s, op);
               Inv(t) && Legal(t, OpUnwatch(w)) && !Armed(Next(t, OpUnwatch(w)))
  {
    hide Inv;
    var op := OpWatch(w, fd, Write, p);
    NextKeeps(s, op);
    var u := Next(Next(s, op), OpUnwatch(w));
    assert Slot(u.polls[p], Write) == w;
  }

  lemma FlushLegal(s: State)
    requires Inv(s)
    ensures Legal(s, OpFlush) && Next(s, OpFlush) == FlushAll(s)
  {
  }

  /** The only poller loses its only watcher. */
  lemma UnwatchedOnce(s: State, w: Watch, fd: int, p: Poller)
    requires Inv(s) && s.pollers == map[fd := p] && s.dirty == [] && fd >= 0
    requires p in s.polls && s.polls[p].fd == fd && s.polls[p].flags == {Et}
    requires (s.polls[p].rd == w && s.polls[p].wr == null) || (s.polls[p].rd == null && s.polls[p].wr == w)
    requires s.watches == map[w := WatchState(true, p)]
    ensures Legal(s, OpUnwatch(w))
    ensures var t := Next(s, OpUnwatch(w));
            t.dirty == [p] && t.kernel == s.kernel && p in t.polls && t.polls[p] == PollState(fd, null, null, {Et, Err})
            && Wanted(t.polls[p]) == {} && Open(t.polls[p])
  {
    hide Inv;
  }

  /** A flushed poller that wants nothing: the kernel is not told. */
  lemma FlushUnwanted(s: State, p: Poller)
    requires Inv(s) && s.dirty == [p] && p in s.polls && Open(s.polls[p]) && Wanted(s.polls[p]) == {}
    ensures var t := FlushAll(s);
            && t.dirty == [] && t.kernel == s.kernel && p in t.polls
            && t.polls[p] == s.polls[p].(flags := s.polls[p].flags - {Err}) && Wanted(t.polls[p]) == {}
  {
    FlushOne(s);
    assert s.polls[p].flags * {Hup, In, Out} == {};
  }
}
