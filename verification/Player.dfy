/** The state engine of src/player.c, the sources it owns, and how it settles after a request. Requests arrive only
    while the thread of the player waits. */
module Player {
  import opened Options

  datatype Mode = Stop | Play | Change | Error

  /** The state with its pause bit. */
  datatype Status = Status(mode: Mode, paused: bool)

  /** What `play` of the media leads to: no call of `_player_play`, one that finds no source, or one that builds one. */
  datatype Offer = Nothing | NoSource | Source

  /** Sources are numbered as they are built; `forgotten` are those that no field refers to any more, though they
      were not destroyed. `last` is the state that the thread has handled. */
  datatype World = World(
    status: Status, last: Mode, media: bool,
    src: Option<nat>, nextsrc: Option<nat>,
    built: nat, destroyed: seq<nat>, forgotten: seq<nat>
  )

  const INITIAL: World := World(Status(Stop, false), Stop, false, None, None, 0, [], [])

  function Listed(source: Option<nat>): seq<nat> {
    if source.Some? then [source.value] else []
  }

  /** `_player_play`. */
  function Offered(w: World, offer: Offer): World {
    match offer
    case Nothing => w
    case NoSource => w.(nextsrc := None, forgotten := w.forgotten + Listed(w.nextsrc))
    case Source => w.(nextsrc := Some(w.built), built := w.built + 1, destroyed := w.destroyed + Listed(w.nextsrc))
  }

  function Stopped(w: World): World {
    w.(src := None, nextsrc := None, destroyed := w.destroyed + Listed(w.src) + Listed(w.nextsrc))
  }

  function Changed(w: World): World {
    w.(src := w.nextsrc, nextsrc := None, destroyed := w.destroyed + Listed(w.src))
  }

  /** `_player_stateengine`: the new world and the state it asks for. */
  function Engine(w: World, mode: Mode, paused: bool, offer: Offer): (World, Status) {
    match mode
    case Stop => (Stopped(w), Status(Stop, false))
    case Play =>
      if paused then (w, Status(Play, false))
      else (Offered(w, offer), Status(if w.src.None? then Change else Play, false))
    case Change =>
      (Changed(w), if w.nextsrc.Some? then Status(Play, paused) else Status(Stop, false))
    case Error => (w, Status(Error, false))
  }

  /** The loop of `player_run` waits, or has ended. */
  predicate Rests(w: World) {
    w.status.mode == w.last || w.last == Error
  }

  /** One turn of the loop. */
  function Turn(w: World, offer: Offer): World {
    var status := if w.media then w.status else Status(Stop, false);
    var (next, asked) := Engine(w.(status := status, last := w.status.mode), status.mode, status.paused, offer);
    if asked == Status(w.status.mode, false) then next else next.(status := asked)
  }

  /** How many turns it takes until the loop waits again. */
  function Turns(w: World): (n: nat)
    ensures n == 0 <==> Rests(w)
    ensures n <= 3
  {
    if Rests(w) then 0
    else
      match w.status.mode
      case Stop => 1
      case Error => 1
      case Play => if !w.media then 2 else if w.status.paused || w.src.Some? then 1 else 3
      case Change => 2
  }

  lemma TurnsFall(w: World, offer: Offer)
    requires !Rests(w)
    ensures Turns(Turn(w, offer)) == Turns(w) - 1
  {
  }

  function OfferAt(offers: seq<Offer>, k: nat): Offer {
    if k < |offers| then offers[k] else Nothing
  }

  /** The loop runs until it waits; `offers` are what the media has for its turns. */
  function Settled(w: World, offers: seq<Offer>, k: nat): World
    decreases Turns(w)
  {
    if Rests(w) then w
    else
      TurnsFall(w, OfferAt(offers, k));
      Settled(Turn(w, OfferAt(offers, k)), offers, k + 1)
  }

  // ----- the player in place -----

  class Context {
    var status: Status
    var last: Mode
    var media: bool
    var src: Option<nat>
    var nextsrc: Option<nat>
    var built: nat
    ghost var destroyed: seq<nat>
    ghost var forgotten: seq<nat>

    ghost function View(): World
      reads this
    {
      World(status, last, media, src, nextsrc, built, destroyed, forgotten)
    }

    constructor ()
      ensures View() == INITIAL
    {
      status, last, media, src, nextsrc, built := Status(Stop, false), Stop, false, None, None, 0;
      destroyed, forgotten := [], [];
    }

    method Destroy(source: nat)
      modifies this`destroyed
      ensures destroyed == old(destroyed) + [source]
    {
      destroyed := destroyed + [source];
    }

    method PlayCallback(offer: Offer)
      requires !offer.Nothing?
      modifies this`nextsrc, this`built, this`destroyed, this`forgotten
      ensures View() == Offered(old(View()), offer)
    {
      if offer.Source? {
        var source := built;
        built := built + 1;
        if nextsrc.Some? {
          Destroy(nextsrc.value);
          nextsrc := None;
        }
        nextsrc := Some(source);
      } else {
        forgotten := forgotten + Listed(nextsrc);
        nextsrc := None;
      }
    }

    method StateEngine(mode: Mode, paused: bool, offer: Offer) returns (asked: Status)
      modifies this`src, this`nextsrc, this`built, this`destroyed, this`forgotten
      ensures (View(), asked) == Engine(old(View()), mode, paused, offer)
    {
      asked := Status(mode, false);
      match mode {
        case Stop =>
          if src.Some? {
            Destroy(src.value);
            src := None;
          }
          if nextsrc.Some? {
            Destroy(nextsrc.value);
            nextsrc := None;
          }
          assert destroyed == old(destroyed) + Listed(old(src)) + Listed(old(nextsrc));
        case Play =>
          if paused {
            return;
          }
          if !offer.Nothing? {
            PlayCallback(offer);
          }
          if src.None? {
            asked := Status(Change, paused);
          }
        case Change =>
          if src.Some? {
            Destroy(src.value);
            src := None;
          }
          src := nextsrc;
          nextsrc := None;
          assert destroyed == old(destroyed) + Listed(old(src));
          if src.Some? {
            asked := Status(Play, paused);
          } else {
            asked := Status(Stop, false);
          }
        case Error =>
      }
    }

    /** The loop of `player_run`, from one wait to the next. */
    method Run(offers: seq<Offer>) returns (turns: nat)
      modifies this
      ensures View() == Settled(old(View()), offers, 0) && Rests(View()) && turns == Turns(old(View()))
    {
      hide Settled, Turns, Engine;
      turns := 0;
      while last != Error && status.mode != last
        invariant turns + Turns(View()) == Turns(old(View()))
        invariant Settled(View(), offers, turns) == Settled(old(View()), offers, 0)
        decreases Turns(View())
      {
        ghost var before := View();
        TurnsFall(View(), OfferAt(offers, turns));
        SettledMore(View(), offers, turns);
        last := status.mode;
        if !media {
          status := Status(Stop, false);
        }
        assert View() == before.(status := if media then before.status else Status(Stop, false), last := before.status.mode);
        var asked := StateEngine(status.mode, status.paused, OfferAt(offers, turns));
        if asked != Status(last, false) {
          status := asked;
        }
        assert View() == Turn(before, OfferAt(offers, turns));
        turns := turns + 1;
      }
      SettledMore(View(), offers, turns);
    }

    /** `player_state` while the thread waits. */
    method State(asked: Status) returns (before: Status)
      modifies this`status
      ensures View() == Happens(old(View()), Ask(asked)) && before == old(status)
    {
      before := status;
      if status != asked {
        status := asked;
      }
    }

    /** `player_play`, whose media makes the offer. */
    method PlayMedia(offer: Offer)
      modifies this
      ensures View() == Happens(old(View()), Enqueue(offer))
    {
      if media && !offer.Nothing? {
        PlayCallback(offer);
      }
    }

    /** `player_change`; `found` says whether a media was built for the path. */
    method ChangeMedia(found: bool, offer: Offer)
      modifies this
      ensures View() == Happens(old(View()), Load(found, offer))
    {
      if found {
        media := true;
      }
      if media && status != Status(Stop, false) {
        PlayMedia(offer);
      }
    }
  }

  lemma SettledMore(w: World, offers: seq<Offer>, k: nat)
    ensures Settled(w, offers, k) == if Rests(w) then w else Settled(Turn(w, OfferAt(offers, k)), offers, k + 1)
  {
    hide Turns;
  }

  // ----- runs -----

  datatype Event =
    | Ask(status: Status)
    | Enqueue(offer: Offer)
    | Load(found: bool, offer: Offer)

  function Happens(w: World, e: Event): World {
    match e
    case Ask(status) => w.(status := status)
    case Enqueue(offer) => if w.media then Offered(w, offer) else w
    case Load(found, offer) =>
      var w' := w.(media := w.media || found);
      if w'.media && w.status != Status(Stop, false) then Offered(w', offer) else w'
  }

  /** A request while the thread waits, and what the media has for the turns it causes. */
  datatype Request = Request(event: Event, offers: seq<Offer>)

  /** The pause bit comes with STATE_PLAY alone, and nobody asks for the end. */
  predicate Asked(r: Request) {
    r.event.Ask? ==> r.event.status.mode != Error && (r.event.status.paused ==> r.event.status.mode == Play)
  }

  function After(w: World, r: Request): World {
    Settled(Happens(w, r.event), r.offers, 0)
  }

  function Run(requests: seq<Request>): World {
    if requests == [] then INITIAL else After(Run(requests[..|requests| - 1]), requests[|requests| - 1])
  }

  // ----- every source has one owner -----

  function Places(w: World): multiset<nat> {
    multiset(w.destroyed) + multiset(w.forgotten) + multiset(Listed(w.src)) + multiset(Listed(w.nextsrc))
  }

  /** Every source built was destroyed once, or is in one field, or is forgotten. */
  ghost predicate Accounted(w: World) {
    forall source: nat :: Places(w)[source] == if source < w.built then 1 else 0
  }

  lemma OfferedPlaces(w: World, offer: Offer)
    ensures Places(Offered(w, offer)) == Places(w) + if offer.Source? then multiset{w.built} else multiset{}
  {
    var next := Listed(w.nextsrc);
    assert multiset(w.destroyed + next) == multiset(w.destroyed) + multiset(next);
    assert multiset(w.forgotten + next) == multiset(w.forgotten) + multiset(next);
  }

  lemma OfferedAccounted(w: World, offer: Offer)
    requires Accounted(w)
    ensures Accounted(Offered(w, offer))
  {
    hide Places;
    OfferedPlaces(w, offer);
  }

  lemma EngineAccounted(w: World, mode: Mode, paused: bool, offer: Offer)
    requires Accounted(w)
    ensures Accounted(Engine(w, mode, paused, offer).0)
  {
    if mode == Stop {
      assert Places(Stopped(w)) == Places(w);
    } else if mode == Change {
      assert Places(Changed(w)) == Places(w);
    } else if mode == Play {
      OfferedAccounted(w, offer);
    }
  }

  lemma StatusAccounted(w: World, status: Status, last: Mode, media: bool)
    requires Accounted(w)
    ensures Accounted(w.(status := status, last := last, media := media))
  {
    assert Places(w.(status := status, last := last, media := media)) == Places(w);
  }

  lemma TurnAccounted(w: World, offer: Offer)
    requires Accounted(w)
    ensures Accounted(Turn(w, offer))
  {
    hide Engine, Accounted;
    var status := if w.media then w.status else Status(Stop, false);
    StatusAccounted(w, status, w.status.mode, w.media);
    var start := w.(status := status, last := w.status.mode);
    EngineAccounted(start, status.mode, status.paused, offer);
    var (next, asked) := Engine(start, status.mode, status.paused, offer);
    StatusAccounted(next, asked, next.last, next.media);
  }

  lemma HappensAccounted(w: World, e: Event)
    requires Accounted(w)
    ensures Accounted(Happens(w, e))
  {
    hide Offered, Accounted;
    match e
    case Ask(status) => StatusAccounted(w, status, w.last, w.media);
    case Enqueue(offer) => OfferedAccounted(w, offer);
    case Load(found, offer) =>
      StatusAccounted(w, w.status, w.last, w.media || found);
      OfferedAccounted(w.(media := w.media || found), offer);
  }

  lemma {:induction false} SettledAccounted(w: World, offers: seq<Offer>, k: nat)
    requires Accounted(w)
    ensures Accounted(Settled(w, offers, k))
    decreases Turns(w)
  {
    hide Turn, Accounted, Turns;
    if !Rests(w) {
      TurnsFall(w, OfferAt(offers, k));
      TurnAccounted(w, OfferAt(offers, k));
      SettledAccounted(Turn(w, OfferAt(offers, k)), offers, k + 1);
    }
  }

  /** No source is destroyed twice, and the two fields never hold the same source or a destroyed one. */
  lemma AccountedMeans(w: World)
    requires Accounted(w)
    ensures forall i, j :: 0 <= i < j < |w.destroyed| ==> w.destroyed[i] != w.destroyed[j]
    ensures w.src.Some? ==> w.src != w.nextsrc && w.src.value !in w.destroyed && w.src.value < w.built
    ensures w.nextsrc.Some? ==> w.nextsrc.value !in w.destroyed && w.nextsrc.value < w.built
  {
    forall i, j | 0 <= i < j < |w.destroyed| ensures w.destroyed[i] != w.destroyed[j] {
      assert Places(w)[w.destroyed[i]] <= 1;
      if w.destroyed[i] == w.destroyed[j] {
        CountedTwice(w.destroyed, i, j);
      }
    }
    if w.src.Some? {
      assert Places(w)[w.src.value] <= 1;
    }
    if w.nextsrc.Some? {
      assert Places(w)[w.nextsrc.value] <= 1;
    }
  }

  lemma CountedTwice(s: seq<nat>, i: nat, j: nat)
    requires i < j < |s| && s[i] == s[j]
    ensures multiset(s)[s[i]] >= 2
  {
    assert s == s[..j] + s[j..];
    assert s[..j][i] == s[i] && s[j..][0] == s[i];
  }

  /** Ownership, over all runs. */
  lemma {:induction false} Owned(requests: seq<Request>)
    ensures Accounted(Run(requests))
  {
    hide Accounted, Settled, Happens;
    if requests == [] {
      InitialAccounted();
    } else {
      var before, r := Run(requests[..|requests| - 1]), requests[|requests| - 1];
      Owned(requests[..|requests| - 1]);
      HappensAccounted(before, r.event);
      SettledAccounted(Happens(before, r.event), r.offers, 0);
    }
  }

  lemma InitialAccounted()
    ensures Accounted(INITIAL)
  {
    assert Places(INITIAL) == multiset{};
  }

  // ----- settling -----

  /** The thread waits, in STATE_STOP without a source or in STATE_PLAY. */
  predicate Calm(w: World) {
    && Rests(w) && w.last != Error
    && (w.status.mode == Stop || w.status.mode == Play)
    && (w.status.mode == Stop ==> w.src.None? && !w.status.paused)
  }

  /** A state that the thread has not handled leads to a calm one: in STATE_STOP both fields are empty, and in
      STATE_PLAY there is a source unless the pause bit kept one from being fetched. */
  lemma {:induction false} SettledCalm(w: World, offers: seq<Offer>, k: nat)
    requires !Rests(w) && w.status.mode != Error && (w.status.paused ==> w.status.mode == Play)
    ensures var w' := Settled(w, offers, k);
      && Calm(w') && w'.media == w.media
      && (w'.status.mode == Stop ==> w'.nextsrc.None?)
      && (w'.status.mode == Play && w'.src.None? <==> w.media && w.status == Status(Play, true) && w.src.None?)
      && (w'.status.mode == Play && w'.src.None? ==> w'.status.paused)
    decreases Turns(w)
  {
    hide Settled, Turns, Offered;
    TurnsFall(w, OfferAt(offers, k));
    SettledMore(w, offers, k);
    var next := Turn(w, OfferAt(offers, k));
    TurnOnce(w, OfferAt(offers, k));
    if Rests(next) {
      SettledMore(next, offers, k + 1);
    } else {
      SettledCalm(next, offers, k + 1);
    }
  }

  lemma TurnOnce(w: World, offer: Offer)
    requires !Rests(w) && w.status.mode != Error && (w.status.paused ==> w.status.mode == Play)
    ensures var w' := Turn(w, offer);
      && w'.status.mode != Error && w'.media == w.media && w'.last == w.status.mode
      && (w'.status.paused ==> w'.status.mode == Play)
      && (!Rests(w') ==> w'.status != Status(Play, true) || w'.src.Some?)
      && (Rests(w') && w'.status.mode == Stop ==> w'.src.None? && w'.nextsrc.None? && !w'.status.paused)
      && (Rests(w') && w'.status.mode == Play ==> w'.src == w.src && w.status == w'.status && w.media)
  {
  }

  /** STATE_PLAY was entered by a pause asked for in STATE_STOP, and not left. */
  predicate Empty(requests: seq<Request>) {
    requests != [] &&
    var init, e := requests[..|requests| - 1], requests[|requests| - 1].event;
    match e
    case Ask(Status(Play, paused)) => Empty(init) || (paused && Run(init).status.mode == Stop && Run(init).media)
    case Ask(_) => false
    case _ => Empty(init)
  }

  /** In STATE_STOP, `player_play` fetched a source, and since then neither failed to nor was the state left. */
  predicate Queued(requests: seq<Request>) {
    requests != [] &&
    var init, e := requests[..|requests| - 1], requests[|requests| - 1].event;
    match e
    case Ask(Status(mode, _)) => mode == Stop && Queued(init)
    case Enqueue(offer) =>
      if Run(init).status.mode == Stop && Run(init).media && !offer.Nothing? then offer.Source? else Queued(init)
    case Load(_, _) => Queued(init)
  }

  /** One request from a calm world. */
  lemma AfterCalm(w: World, r: Request)
    requires Calm(w) && Asked(r)
    ensures var w', e := After(w, r), r.event;
      && Calm(w')
      && (w'.status.mode == Play && w'.src.None? <==>
           if e.Ask? then
             && e.status.mode == Play
             && ((w.status.mode == Play && w.src.None?) || (e.status.paused && w.status.mode == Stop && w.media))
           else w.status.mode == Play && w.src.None?)
      && (w'.status.mode == Stop && w'.nextsrc.Some? <==>
           && w.status.mode == Stop
           && match e
              case Ask(status) => status.mode == Stop && w.nextsrc.Some?
              case Enqueue(offer) => if w.media && !offer.Nothing? then offer.Source? else w.nextsrc.Some?
              case Load(_, _) => w.nextsrc.Some?)
  {
    hide Settled, Turns;
    var w1 := Happens(w, r.event);
    SettledMore(w1, r.offers, 0);
    if !Rests(w1) {
      SettledCalm(w1, r.offers, 0);
    }
  }

  /** Settling, over all runs: after each request the thread waits again within three turns. In STATE_STOP there is no
      source, and a next one exactly if `player_play` was called there; in STATE_PLAY there is a source unless the
      state was entered by a pause in STATE_STOP, which STATE_PLAY afterwards does not repair. */
  lemma {:induction false} Settles(requests: seq<Request>)
    requires forall i :: 0 <= i < |requests| ==> Asked(requests[i])
    ensures Calm(Run(requests))
    ensures Run(requests).status.mode == Play && Run(requests).src.None? <==> Empty(requests)
    ensures Run(requests).status.mode == Stop && Run(requests).nextsrc.Some? <==> Queued(requests)
    decreases |requests|
  {
    hide Calm, After;
    if requests == [] {
      InitialCalm();
    } else {
      var init, r := requests[..|requests| - 1], requests[|requests| - 1];
      Settles(init);
      AfterCalm(Run(init), r);
    }
  }

  lemma InitialCalm()
    ensures Calm(INITIAL)
  {
  }

  // ----- which source is played -----

  /** The next source, or a new one if the media has one. */
  function Waiting(w: World, offer: Offer): Option<nat> {
    match offer
    case Nothing => w.nextsrc
    case NoSource => None
    case Source => Some(w.built)
  }

  lemma StopTurn(w: World, offer: Offer)
    requires w.status == Status(Stop, false)
    ensures Turn(w, offer) == w.(src := None, nextsrc := None, last := Stop,
                                 destroyed := w.destroyed + Listed(w.src) + Listed(w.nextsrc))
  {
  }

  lemma PlayTurn(w: World, offer: Offer)
    requires w.status == Status(Play, false) && w.media
    ensures var w' := Turn(w, offer);
      && w'.src == w.src && w'.nextsrc == Waiting(w, offer) && w'.media && w'.last == Play
      && w'.status == Status(if w.src.None? then Change else Play, false)
      && w'.destroyed == w.destroyed + if offer == Source then Listed(w.nextsrc) else []
  {
  }

  lemma ChangeTurn(w: World, offer: Offer)
    requires w.status == Status(Change, false) && w.media
    ensures Turn(w, offer) == w.(src := w.nextsrc, nextsrc := None, last := Change, destroyed := w.destroyed + Listed(w.src),
                                 status := Status(if w.nextsrc.Some? then Play else Stop, false))
  {
  }

  /** Skipping to the next track: with source `n` waiting it is the one played, and the former one is destroyed; with
      none waiting the player stops. */
  lemma ChangePlaysNext(w: World, r: Request)
    requires Calm(w) && w.media && r.event == Ask(Status(Change, false))
    ensures var w' := After(w, r);
      && w'.destroyed == w.destroyed + Listed(w.src)
      && (match w.nextsrc
          case Some(n) =>
            && w'.status == Status(Play, false) && w'.src == Some(n)
            && w'.nextsrc == if OfferAt(r.offers, 1) == Source then Some(w.built) else None
          case None => w'.status == Status(Stop, false) && w'.src == None && w'.nextsrc == None)
  {
    hide Turns, Settled, Turn;
    var asked := Happens(w, r.event);
    var changed := Turn(asked, OfferAt(r.offers, 0));
    SettledMore(asked, r.offers, 0);
    ChangeTurn(asked, OfferAt(r.offers, 0));
    SettledMore(changed, r.offers, 1);
    SettledMore(Turn(changed, OfferAt(r.offers, 1)), r.offers, 2);
    if w.nextsrc.Some? {
      PlayTurn(changed, OfferAt(r.offers, 1));
    } else {
      StopTurn(changed, OfferAt(r.offers, 1));
    }
  }

  /** A start from STATE_STOP plays exactly the source that waits after the first fetch, and stops again if there is none. */
  lemma StartPlaysWaiting(w: World, r: Request)
    requires Calm(w) && w.status.mode == Stop && w.media && r.event == Ask(Status(Play, false))
    ensures var w', n := After(w, r), Waiting(w, OfferAt(r.offers, 0));
      w'.src == n && w'.status == if n.Some? then Status(Play, false) else Status(Stop, false)
  {
    hide Turns, Settled, Turn;
    var asked := Happens(w, r.event);
    var fetched := Turn(asked, OfferAt(r.offers, 0));
    var changed := Turn(fetched, OfferAt(r.offers, 1));
    SettledMore(asked, r.offers, 0);
    PlayTurn(asked, OfferAt(r.offers, 0));
    SettledMore(fetched, r.offers, 1);
    ChangeTurn(fetched, OfferAt(r.offers, 1));
    SettledMore(changed, r.offers, 2);
    SettledMore(Turn(changed, OfferAt(r.offers, 2)), r.offers, 3);
    if fetched.nextsrc.Some? {
      PlayTurn(changed, OfferAt(r.offers, 2));
    } else {
      StopTurn(changed, OfferAt(r.offers, 2));
    }
  }

  /** A stop of STATE_PLAY destroys what is played and what waits; in STATE_STOP it changes nothing. */
  lemma StopPlaysNothing(w: World, r: Request)
    requires Calm(w) && r.event == Ask(Status(Stop, false))
    ensures After(w, r) ==
      if w.status.mode == Stop then w
      else World(Status(Stop, false), Stop, w.media, None, None, w.built, w.destroyed + Listed(w.src) + Listed(w.nextsrc),
                 w.forgotten)
  {
    hide Turns, Settled;
    var asked := Happens(w, r.event);
    SettledMore(asked, r.offers, 0);
    SettledMore(Turn(asked, OfferAt(r.offers, 0)), r.offers, 1);
  }

  /** What is played goes on through a pause and while sources are fetched: a new one waits instead of the one before,
      which is destroyed. */
  lemma PlayedGoesOn(w: World, r: Request)
    requires Calm(w) && w.media && (r.event.Ask? ==> r.event.status.mode == Play == w.status.mode)
    requires r.event.Load? ==> w.status != Status(Stop, false)
    ensures var w' := After(w, r);
      match r.event
      case Ask(status) => w' == w.(status := status)
      case Enqueue(offer) =>
        && w'.src == w.src && w'.status == w.status && w'.nextsrc == Waiting(w, offer)
        && w'.destroyed == w.destroyed + if offer == Source then Listed(w.nextsrc) else []
      case Load(_, offer) =>
        && w'.src == w.src && w'.status == w.status && w'.nextsrc == Waiting(w, offer)
        && w'.destroyed == w.destroyed + if offer == Source then Listed(w.nextsrc) else []
  {
    hide Turns, Settled;
    SettledMore(Happens(w, r.event), r.offers, 0);
  }

  /** What is played is older than what waits, nothing is younger than what was built last, and neither is older
      than `oldest`. */
  predicate Newer(w: World, oldest: nat) {
    && (w.src.Some? ==> oldest <= w.src.value < w.built)
    && (w.nextsrc.Some? ==> oldest <= w.nextsrc.value < w.built)
    && (w.src.Some? && w.nextsrc.Some? ==> w.src.value < w.nextsrc.value)
    && oldest <= w.built
  }

  lemma {:induction false} SettledNewer(w: World, offers: seq<Offer>, k: nat, oldest: nat)
    requires Newer(w, oldest)
    ensures Newer(Settled(w, offers, k), oldest)
    decreases Turns(w)
  {
    hide Turns, Settled;
    SettledMore(w, offers, k);
    if !Rests(w) {
      TurnsFall(w, OfferAt(offers, k));
      SettledNewer(Turn(w, OfferAt(offers, k)), offers, k + 1, oldest);
    }
  }

  lemma AfterNewer(w: World, r: Request, oldest: nat)
    requires Newer(w, oldest)
    ensures Newer(After(w, r), oldest)
  {
    SettledNewer(Happens(w, r.event), r.offers, 0, oldest);
  }

  lemma {:induction false} RunNewer(requests: seq<Request>, k: nat, oldest: nat)
    requires k <= |requests| && Newer(Run(requests[..k]), oldest)
    ensures Newer(Run(requests), oldest)
    decreases |requests|
  {
    hide Newer, After;
    if k == |requests| {
      assert requests[..k] == requests;
    } else {
      var init := requests[..|requests| - 1];
      assert init[..k] == requests[..k];
      RunNewer(init, k, oldest);
      AfterNewer(Run(init), requests[|requests| - 1], oldest);
    }
  }

  /** Over all runs: what is played is never older than what was played at any time before. */
  lemma NeverOlder(requests: seq<Request>, k: nat)
    requires k <= |requests|
    ensures var before, now := Run(requests[..k]).src, Run(requests).src;
      before.Some? && now.Some? ==> before.value <= now.value
  {
    hide Run;
    var before := Run(requests[..k]);
    NothingOlder(requests[..k]);
    if before.src.Some? {
      RunNewer(requests, k, before.src.value);
    }
  }

  lemma NothingOlder(requests: seq<Request>)
    ensures Newer(Run(requests), 0)
  {
    hide Run;
    assert Run([]) == INITIAL by { RunMore([], Request(Ask(Status(Stop, false)), [])); }
    assert requests[..0] == [];
    RunNewer(requests, 0, 0);
  }

  // ----- sources that are forgotten -----

  /** A failed fetch forgets the next source, and nothing else does. */
  lemma OfferedForgets(w: World, offer: Offer)
    ensures Offered(w, offer).forgotten
      == w.forgotten + if offer == NoSource then Listed(w.nextsrc) else []
    ensures Offered(w, offer).forgotten != w.forgotten <==> offer == NoSource && w.nextsrc.Some?
  {
    if offer == NoSource && w.nextsrc.Some? {
      assert |Offered(w, offer).forgotten| == |w.forgotten| + 1;
    }
  }

  /** The guard of a request that forgets a source: one waits as the next, and the media has none to replace it. It is
      asked for by `player_play`, by `player_change` unless stopped, or by starting from STATE_STOP. */
  predicate Forgets(w: World, r: Request) {
    && w.nextsrc.Some?
    && match r.event
       case Ask(status) => w.media && w.status.mode == Stop && status == Status(Play, false) && OfferAt(r.offers, 0) == NoSource
       case Enqueue(offer) => w.media && offer == NoSource
       case Load(found, offer) => (w.media || found) && w.status != Status(Stop, false) && offer == NoSource
  }

  /** From a state where the next source is gone, or will be played or destroyed, the loop forgets nothing. */
  lemma {:induction false} SettledForgetsNothing(w: World, offers: seq<Offer>, k: nat)
    requires w.nextsrc.None? || w.status.mode != Play || w.status.paused || !w.media || Rests(w)
    requires w.status.mode == Change ==> !w.status.paused
    ensures Settled(w, offers, k).forgotten == w.forgotten
    decreases Turns(w)
  {
    hide Settled, Turns;
    SettledMore(w, offers, k);
    if !Rests(w) {
      TurnsFall(w, OfferAt(offers, k));
      TurnForgetsNothing(w, OfferAt(offers, k));
      SettledForgetsNothing(Turn(w, OfferAt(offers, k)), offers, k + 1);
    }
  }

  lemma TurnForgetsNothing(w: World, offer: Offer)
    requires !Rests(w) && (w.nextsrc.None? || w.status.mode != Play || w.status.paused || !w.media)
    requires w.status.mode == Change ==> !w.status.paused
    ensures var w' := Turn(w, offer);
      && w'.forgotten == w.forgotten
      && (w'.nextsrc.None? || w'.status.mode != Play || w'.status.paused || !w'.media || Rests(w'))
      && (w'.status.mode == Change ==> !w'.status.paused)
  {
    OfferedForgets(w, offer);
  }

  /** A turn that starts to play forgets what the media cannot replace; afterwards nothing more is lost. */
  lemma PlayForgets(w: World, offers: seq<Offer>, k: nat)
    requires !Rests(w) && w.status == Status(Play, false) && w.media
    ensures Settled(w, offers, k).forgotten
      == w.forgotten + if OfferAt(offers, k) == NoSource then Listed(w.nextsrc) else []
  {
    hide Settled, Turns;
    SettledMore(w, offers, k);
    OfferedForgets(w, OfferAt(offers, k));
    SettledForgetsNothing(Turn(w, OfferAt(offers, k)), offers, k + 1);
  }

  /** One request forgets a source exactly under that guard, and then just the next one. */
  lemma AfterForgets(w: World, r: Request)
    requires Calm(w) && Asked(r)
    ensures After(w, r).forgotten == w.forgotten + if Forgets(w, r) then Listed(w.nextsrc) else []
  {
    hide Settled, Turns, Offered;
    var w1 := Happens(w, r.event);
    match r.event
    case Ask(status) =>
      if !Rests(w1) && status == Status(Play, false) && w.media {
        PlayForgets(w1, r.offers, 0);
      } else {
        SettledForgetsNothing(w1, r.offers, 0);
      }
    case Enqueue(offer) =>
      OfferedForgets(w, offer);
      OfferedStatus(w, offer);
      SettledForgetsNothing(w1, r.offers, 0);
    case Load(found, offer) =>
      OfferedForgets(w.(media := w.media || found), offer);
      OfferedStatus(w.(media := w.media || found), offer);
      SettledForgetsNothing(w1, r.offers, 0);
  }

  lemma OfferedStatus(w: World, offer: Offer)
    ensures Offered(w, offer).status == w.status && Offered(w, offer).last == w.last && Offered(w, offer).media == w.media
  {
  }

  /** Some request met the guard when it was made. */
  predicate EverForgets(requests: seq<Request>) {
    requests != [] &&
    var init := requests[..|requests| - 1];
    EverForgets(init) || Forgets(Run(init), requests[|requests| - 1])
  }

  /** Over all runs, some source is forgotten if and only if some request met the guard when it was made. */
  lemma {:induction false} ForgottenExactly(requests: seq<Request>)
    requires forall i :: 0 <= i < |requests| ==> Asked(requests[i])
    ensures Run(requests).forgotten != [] <==> EverForgets(requests)
    decreases |requests|
  {
    hide Forgets, After, Calm;
    if requests != [] {
      var init, r := requests[..|requests| - 1], requests[|requests| - 1];
      Settles(init);
      AfterForgets(Run(init), r);
      ForgetsFetched(Run(init), r);
      ForgottenExactly(init);
    }
  }

  lemma ForgetsFetched(w: World, r: Request)
    ensures Forgets(w, r) ==> Listed(w.nextsrc) != []
  {
  }

  /** A run that forgets: `player_play` finds a source in STATE_STOP, and then none. */
  lemma SourceForgotten()
    ensures var requests := [Request(Load(true, Nothing), []), Request(Enqueue(Source), []), Request(Enqueue(NoSource), [])];
      Run(requests).forgotten == [0] && Run(requests).destroyed == []
  {
    hide Run, After;
    var load, fetch, fail := Request(Load(true, Nothing), []), Request(Enqueue(Source), []), Request(Enqueue(NoSource), []);
    assert [] + [load] == [load] && [load] + [fetch] == [load, fetch] && [load, fetch] + [fail] == [load, fetch, fail];
    RunMore([], load);
    RunMore([load], fetch);
    RunMore([load, fetch], fail);
    var loaded := INITIAL.(media := true);
    RestedAfter(INITIAL, load);
    RestedAfter(loaded, fetch);
    RestedAfter(Offered(loaded, Source), fail);
  }

  lemma RunMore(requests: seq<Request>, r: Request)
    ensures Run([]) == INITIAL && Run(requests + [r]) == After(Run(requests), r)
  {
    assert (requests + [r])[..|requests|] == requests;
  }

  lemma RestedAfter(w: World, r: Request)
    requires Rests(Happens(w, r.event))
    ensures After(w, r) == Happens(w, r.event)
  {
  }
}
