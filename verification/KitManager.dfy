/** Kits with per-player cooldowns, over whole runs of definitions, deletions and grants. */
module KitManaging {
  import opened Clocks
  import opened Wrappers

  lemma SecondsMonotone(a: int, b: int)
    requires a <= b
    ensures WholeSeconds(a) <= WholeSeconds(b)
  {
  }

  datatype Kit = Kit(name: string, items: seq<string>, cooldownSeconds: int, permission: string)

  /** A granted kit: the clock is read once to check the cooldown and once more for the record. The
      readings are in ticks; the code compares and stores their whole seconds. */
  datatype Grant = Grant(player: string, kit: string, checkClock: int, stampClock: int, cooldown: int) {
    function CheckedAt(): int {
      WholeSeconds(checkClock)
    }

    function StampedAt(): int {
      WholeSeconds(stampClock)
    }
  }

  // ----- The record of grants decides -----

  /** When the player last received the kit. */
  function LastGrant(log: seq<Grant>, player: string, kit: string): Option<int> {
    if log == [] then None
    else
      var last := log[|log| - 1];
      if last.player == player && last.kit == kit then Some(last.StampedAt())
      else LastGrant(log[..|log| - 1], player, kit)
  }

  datatype State = State(kits: map<string, Kit>, log: seq<Grant>)

  datatype Op =
    | Define(name: string, kit: Kit)
    | Delete(name: string)
    | Give(player: string, name: string, checkClock: int, stampClock: int)

  predicate MayReceive(s: State, player: string, name: string, clock: int) {
    && name in s.kits
    && match LastGrant(s.log, player, name)
       case None => true
       case Some(at) => WholeSeconds(clock) - at >= s.kits[name].cooldownSeconds
  }

  function Apply(s: State, op: Op): State {
    match op
    case Define(name, kit) => s.(kits := s.kits[name := kit])
    case Delete(name) => s.(kits := s.kits - {name})
    case Give(player, name, checkClock, stampClock) =>
      if !MayReceive(s, player, name, checkClock) then s
      else
        s.(log := s.log + [Grant(player, name, checkClock, stampClock, s.kits[name].cooldownSeconds)])
  }

  function Run(s: State, ops: seq<Op>): State
    decreases |ops|
  {
    if ops == [] then s else Run(Apply(s, ops[0]), ops[1..])
  }

  /** The clock never goes back, neither between calls nor between the two reads of one grant. */
  predicate Monotone(from: int, ops: seq<Op>)
    decreases |ops|
  {
    ops == [] || (
      if ops[0].Give? then from <= ops[0].checkClock <= ops[0].stampClock && Monotone(ops[0].stampClock, ops[1..])
      else Monotone(from, ops[1..]))
  }

  // ----- The nested map of the class holds exactly the last grants -----

  function Lookup(received: map<string, map<string, int>>, player: string, kit: string): Option<int> {
    if player in received && kit in received[player] then Some(received[player][kit]) else None
  }

  function Record(received: map<string, map<string, int>>, player: string, kit: string, at: int): map<string, map<string, int>> {
    received[player := (if player in received then received[player] else map[])[kit := at]]
  }

  class KitManager {
    var kits: map<string, Kit>
    var lastReceived: map<string, map<string, int>>
    ghost var log: seq<Grant>

    ghost function View(): State
      reads this
    {
      State(kits, log)
    }

    ghost predicate Valid()
      reads this
    {
      forall player, kit :: Lookup(lastReceived, player, kit) == LastGrant(log, player, kit)
    }

    constructor ()
      ensures Valid() && View() == State(map[], [])
    {
      kits, lastReceived, log := map[], map[], [];
    }

    method DefineKit(name: string, kit: Kit)
      requires Valid()
      modifies this`kits
      ensures Valid() && View() == Apply(old(View()), Define(name, kit))
      ensures kits == old(kits)[name := kit]
    {
      kits := kits[name := kit];
    }

    /** Deleting a kit forgets its definition but not who received it when. */
    method DeleteKit(name: string)
      requires Valid()
      modifies this`kits
      ensures Valid() && View() == Apply(old(View()), Delete(name))
      ensures kits == old(kits) - {name}
    {
      kits := kits - {name};
    }

    method CanReceiveKit(playerId: string, kitName: string, clock: int) returns (can: bool)
      requires Valid()
      ensures can <==> MayReceive(View(), playerId, kitName, clock)
    {
      assert Lookup(lastReceived, playerId, kitName) == LastGrant(log, playerId, kitName);
      if kitName !in kits {
        return false;
      }
      if playerId !in lastReceived || kitName !in lastReceived[playerId] {
        return true;
      }
      var elapsed := WholeSeconds(clock) - lastReceived[playerId][kitName];
      return elapsed >= kits[kitName].cooldownSeconds;
    }

    method GiveKit(playerId: string, kitName: string, checkClock: int, stampClock: int) returns (given: bool)
      requires Valid()
      modifies this`lastReceived, this`log
      ensures Valid() && View() == Apply(old(View()), Give(playerId, kitName, checkClock, stampClock))
      ensures given <==> MayReceive(old(View()), playerId, kitName, checkClock)
      ensures !given ==> lastReceived == old(lastReceived) && log == old(log)
      ensures given ==>
        && kitName in kits && playerId in lastReceived && kitName in lastReceived[playerId]
        && lastReceived[playerId][kitName] == WholeSeconds(stampClock)
        && log == old(log) + [Grant(playerId, kitName, checkClock, stampClock, kits[kitName].cooldownSeconds)]
      ensures forall player, kit :: player != playerId || kit != kitName ==>
        Lookup(lastReceived, player, kit) == Lookup(old(lastReceived), player, kit)
    {
      given := CanReceiveKit(playerId, kitName, checkClock);
      if given {
        var at := WholeSeconds(stampClock);
        lastReceived := Record(lastReceived, playerId, kitName, at);
        log := log + [Grant(playerId, kitName, checkClock, stampClock, kits[kitName].cooldownSeconds)];
        assert log[..|log| - 1] == old(log);
      }
    }
  }

  // ----- Every run -----

  predicate SameKey(a: Grant, b: Grant) {
    a.player == b.player && a.kit == b.kit
  }

  ghost predicate Inv(log: seq<Grant>, clock: int) {
    && (forall i :: 0 <= i < |log| ==> log[i].CheckedAt() <= log[i].StampedAt() <= WholeSeconds(clock))
    && (forall i, j :: 0 <= i < j < |log| ==> log[i].StampedAt() <= log[j].CheckedAt())
    && (forall i, j :: 0 <= i < j < |log| && SameKey(log[i], log[j]) ==>
          log[j].CheckedAt() - log[i].StampedAt() >= log[j].cooldown)
  }

  /** The last grant is the latest one on a sorted log. */
  lemma {:induction false} LastGrantBounds(log: seq<Grant>, clock: int, player: string, kit: string, i: nat)
    requires Inv(log, clock) && i < |log| && log[i].player == player && log[i].kit == kit
    ensures LastGrant(log, player, kit).Some? && log[i].StampedAt() <= LastGrant(log, player, kit).value
    decreases |log|
  {
    if i < |log| - 1 {
      LastGrantBounds(log[..|log| - 1], clock, player, kit, i);
    }
  }

  lemma InvSnoc(log: seq<Grant>, from: int, g: Grant, to: int)
    requires Inv(log, from) && WholeSeconds(from) <= g.CheckedAt() <= g.StampedAt() <= WholeSeconds(to)
    requires forall i :: 0 <= i < |log| && SameKey(log[i], g) ==> g.CheckedAt() - log[i].StampedAt() >= g.cooldown
    ensures Inv(log + [g], to)
  {
    var more := log + [g];
    forall i, j | 0 <= i < j < |more|
      ensures more[i].StampedAt() <= more[j].CheckedAt()
      ensures SameKey(more[i], more[j]) ==> more[j].CheckedAt() - more[i].StampedAt() >= more[j].cooldown
    {
      assert more[i] == log[i];
      if j < |log| {
        assert more[j] == log[j];
      }
    }
  }

  lemma GiveKeepsInv(s: State, from: int, op: Op)
    requires Inv(s.log, from) && op.Give? && from <= op.checkClock <= op.stampClock
    ensures Inv(Apply(s, op).log, op.stampClock)
  {
    SecondsMonotone(from, op.checkClock);
    SecondsMonotone(op.checkClock, op.stampClock);
    if MayReceive(s, op.player, op.name, op.checkClock) {
      var grant := Grant(op.player, op.name, op.checkClock, op.stampClock, s.kits[op.name].cooldownSeconds);
      forall i | 0 <= i < |s.log| && SameKey(s.log[i], grant)
        ensures grant.CheckedAt() - s.log[i].StampedAt() >= grant.cooldown
      {
        LastGrantBounds(s.log, from, op.player, op.name, i);
      }
      InvSnoc(s.log, from, grant, op.stampClock);
    }
  }

  lemma {:induction false} RunKeepsInv(s: State, from: int, ops: seq<Op>) returns (clock: int)
    requires Inv(s.log, from) && Monotone(from, ops)
    ensures Inv(Run(s, ops).log, clock)
    decreases |ops|
  {
    if ops == [] {
      clock := from;
    } else if ops[0].Give? {
      GiveKeepsInv(s, from, ops[0]);
      clock := RunKeepsInv(Apply(s, ops[0]), ops[0].stampClock, ops[1..]);
    } else {
      clock := RunKeepsInv(Apply(s, ops[0]), from, ops[1..]);
    }
  }

  lemma {:induction false} LastGrantIsLogged(log: seq<Grant>, player: string, kit: string)
    ensures match LastGrant(log, player, kit)
            case None => forall i :: 0 <= i < |log| ==> !(log[i].player == player && log[i].kit == kit)
            case Some(at) => exists i :: 0 <= i < |log| && log[i].player == player && log[i].kit == kit && log[i].StampedAt() == at
    decreases |log|
  {
    if log != [] {
      LastGrantIsLogged(log[..|log| - 1], player, kit);
    }
  }

  /** In every run a request is granted exactly if the kit is defined and its cooldown has passed since
      each and every earlier grant of it to the player. */
  lemma GrantedIff(start: int, ops: seq<Op>, player: string, name: string, clock: int)
    requires Monotone(start, ops)
    ensures var s := Run(State(map[], []), ops);
            MayReceive(s, player, name, clock) <==>
              && name in s.kits
              && forall i :: 0 <= i < |s.log| && s.log[i].player == player && s.log[i].kit == name ==>
                   WholeSeconds(clock) - s.log[i].StampedAt() >= s.kits[name].cooldownSeconds
  {
    var s := Run(State(map[], []), ops);
    var now := RunKeepsInv(State(map[], []), start, ops);
    LastGrantIsLogged(s.log, player, name);
    forall i | 0 <= i < |s.log| && s.log[i].player == player && s.log[i].kit == name
      ensures LastGrant(s.log, player, name).Some? && s.log[i].StampedAt() <= LastGrant(s.log, player, name).value
    {
      LastGrantBounds(s.log, now, player, name, i);
    }
  }

  /** Two grants of one kit to one player are at least the cooldown in force at the later one apart,
      whatever was defined, deleted and redefined in between. */
  lemma GrantsAreSpaced(start: int, ops: seq<Op>, i: nat, j: nat)
    requires Monotone(start, ops)
    requires var log := Run(State(map[], []), ops).log; i < j < |log| && SameKey(log[i], log[j])
    ensures var log := Run(State(map[], []), ops).log;
            log[j].StampedAt() - log[i].StampedAt() >= log[j].CheckedAt() - log[i].StampedAt() >= log[j].cooldown
  {
    var clock := RunKeepsInv(State(map[], []), start, ops);
  }

  // ----- Definitions over whole runs -----

  predicate About(op: Op, name: string) {
    match op
    case Define(n, _) => n == name
    case Delete(n) => n == name
    case Give(_, _, _, _) => false
  }

  lemma {:induction false} UntouchedStays(s: State, ops: seq<Op>, name: string)
    requires forall i :: 0 <= i < |ops| ==> !About(ops[i], name)
    ensures name in Run(s, ops).kits <==> name in s.kits
    ensures name in s.kits ==> Run(s, ops).kits[name] == s.kits[name]
    decreases |ops|
  {
    if ops != [] {
      UntouchedStays(Apply(s, ops[0]), ops[1..], name);
    }
  }

  /** After any run a kit is what was last said about it: as defined, or gone if it was deleted. */
  lemma {:induction false} LastWordHolds(s: State, ops: seq<Op>, name: string, k: nat)
    requires k < |ops| && About(ops[k], name) && forall i :: k < i < |ops| ==> !About(ops[i], name)
    ensures ops[k].Define? ==> name in Run(s, ops).kits && Run(s, ops).kits[name] == ops[k].kit
    ensures ops[k].Delete? ==> name !in Run(s, ops).kits
    decreases |ops|
  {
    if k == 0 {
      UntouchedStays(Apply(s, ops[0]), ops[1..], name);
    } else {
      LastWordHolds(Apply(s, ops[0]), ops[1..], name, k - 1);
    }
  }

  // ----- The spacing in clock ticks -----

  /** Grant i is the latest one of the kit to the player. */
  predicate IsLatest(log: seq<Grant>, i: nat, player: string, kit: string) {
    && i < |log| && log[i].player == player && log[i].kit == kit
    && forall k :: i < k < |log| ==> !(log[k].player == player && log[k].kit == kit)
  }

  lemma {:induction false} LatestIsLast(log: seq<Grant>, i: nat, player: string, kit: string)
    requires IsLatest(log, i, player, kit)
    ensures LastGrant(log, player, kit) == Some(log[i].StampedAt())
    decreases |log|
  {
    if i < |log| - 1 {
      var front := log[..|log| - 1];
      assert IsLatest(front, i, player, kit) && front[i] == log[i];
      LatestIsLast(front, i, player, kit);
    }
  }

  /** The first tick at which a kit stamped at e can be granted again. */
  function OpensAt(e: int, cooldown: int): int {
    FirstTick(WholeSeconds(e) + cooldown)
  }

  /** A kit is granted again exactly from one tick on: the one that begins the second in which the cooldown,
      counted from the beginning of the second of the last grant, has passed. */
  lemma GrantedFromTickOn(s: State, i: nat, player: string, name: string, clock: int)
    requires IsLatest(s.log, i, player, name) && name in s.kits
    ensures MayReceive(s, player, name, clock)
            <==> clock >= OpensAt(s.log[i].stampClock, s.kits[name].cooldownSeconds)
  {
    LatestIsLast(s.log, i, player, name);
    SecondIsReachedAt(clock, s.log[i].StampedAt() + s.kits[name].cooldownSeconds);
  }

  /** What the truncation takes off a cooldown that starts at tick e. */
  lemma Shortfall(e: int, cooldown: int)
    ensures 0 <= e && 0 < cooldown ==> OpensAt(e, cooldown) - e == cooldown * TICKS - e % TICKS
    ensures e < 0 < WholeSeconds(e) + cooldown ==> OpensAt(e, cooldown) - e == cooldown * TICKS + (-e) % TICKS
    ensures e < 0 && WholeSeconds(e) + cooldown <= 0 ==>
      OpensAt(e, cooldown) - e == (cooldown - 1) * TICKS + 1 + (-e) % TICKS
    ensures 0 < cooldown ==> e <= OpensAt(e, cooldown)
  {
    SecondIsReachedAt(e, WholeSeconds(e) + cooldown);
    if e >= 0 {
      assert e == TICKS * (e / TICKS) + e % TICKS;
    } else {
      assert -e == TICKS * (-e / TICKS) + -e % TICKS;
    }
  }

  /** Whether a cooldown that starts at tick e is never cut short: after the clock's origin only at the
      very beginning of a second; before it, where truncation rounds up, unless it also ends before. */
  predicate StartsFully(e: int, cooldown: int) {
    if e >= 0 then e % TICKS == 0 else WholeSeconds(e) + cooldown > 0 || (-e) % TICKS == TICKS - 1
  }

  /** In any run: whenever the kit is granted again the full cooldown has passed since the last grant,
      to the tick, exactly if that grant was stamped as `StartsFully` says. */
  lemma FullSpacingIff(start: int, ops: seq<Op>, player: string, name: string, i: nat)
    requires Monotone(start, ops)
    requires var s := Run(State(map[], []), ops);
      IsLatest(s.log, i, player, name) && name in s.kits && s.kits[name].cooldownSeconds > 0
    ensures var s := Run(State(map[], []), ops);
      var e, c := s.log[i].stampClock, s.kits[name].cooldownSeconds;
      (forall later :: e <= later && MayReceive(s, player, name, later) ==> later - e >= c * TICKS) <==> StartsFully(e, c)
  {
    var s := Run(State(map[], []), ops);
    var e, c := s.log[i].stampClock, s.kits[name].cooldownSeconds;
    Shortfall(e, c);
    forall later ensures MayReceive(s, player, name, later) <==> later >= OpensAt(e, c) {
      GrantedFromTickOn(s, i, player, name, later);
    }
    assert MayReceive(s, player, name, OpensAt(e, c));
  }

  /** The raw readings of a run, in ticks, never go back. */
  ghost predicate ClockInv(log: seq<Grant>, clock: int) {
    && (forall i :: 0 <= i < |log| ==> log[i].stampClock <= clock)
    && (forall i, j :: 0 <= i < j < |log| ==> log[i].stampClock <= log[j].checkClock)
  }

  lemma {:induction false} RunKeepsClock(s: State, from: int, ops: seq<Op>) returns (clock: int)
    requires ClockInv(s.log, from) && Monotone(from, ops)
    ensures ClockInv(Run(s, ops).log, clock)
    decreases |ops|
  {
    if ops == [] {
      clock := from;
    } else {
      var at := if ops[0].Give? then ops[0].stampClock else from;
      assert ClockInv(Apply(s, ops[0]).log, at);
      clock := RunKeepsClock(Apply(s, ops[0]), at, ops[1..]);
    }
  }

  /** So between two grants of a run less than one second is missing. */
  lemma SpacingInTicks(start: int, ops: seq<Op>, i: nat, j: nat)
    requires Monotone(start, ops)
    requires var log := Run(State(map[], []), ops).log; i < j < |log| && SameKey(log[i], log[j])
    ensures var log := Run(State(map[], []), ops).log;
      log[j].checkClock - log[i].stampClock > (log[j].cooldown - 1) * TICKS
  {
    var log := Run(State(map[], []), ops).log;
    var clock := RunKeepsInv(State(map[], []), start, ops);
    var latest := RunKeepsClock(State(map[], []), start, ops);
    SecondIsReachedAt(log[j].checkClock, log[i].StampedAt() + log[j].cooldown);
    Shortfall(log[i].stampClock, log[j].cooldown);
  }

  lemma TwoGrants(kit: Kit, start: int, first: int, second: int) returns (ops: seq<Op>)
    requires start <= first && 0 < kit.cooldownSeconds && first <= second && OpensAt(first, kit.cooldownSeconds) <= second
    ensures Monotone(start, ops)
    ensures Run(State(map[], []), ops).log == [Grant("p", "k", first, first, kit.cooldownSeconds),
                                               Grant("p", "k", second, second, kit.cooldownSeconds)]
  {
    var one, two := Give("p", "k", first, first), Give("p", "k", second, second);
    ops := [Define("k", kit), one, two];
    var defined := Apply(State(map[], []), ops[0]);
    var granted := Apply(defined, one);
    assert granted.log == [Grant("p", "k", first, first, kit.cooldownSeconds)];
    GrantedFromTickOn(granted, 0, "p", "k", second);
    assert Run(granted, [two]) == Apply(granted, two) by {
      assert [two][1..] == [];
    }
    assert Run(defined, [one, two]) == Run(granted, [two]) by {
      assert [one, two][1..] == [two];
    }
    assert ops[1..] == [one, two] && [one, two][1..] == [two] && [two][1..] == [];
    assert Monotone(first, [two]);
    assert Monotone(start, [one, two]);
  }

  /** And for every cooldown a run in which all of that second but one tick is missing. */
  lemma SpacingInTicksIsTight(cooldown: int) returns (ops: seq<Op>)
    requires 0 < cooldown
    ensures Monotone(0, ops)
    ensures var log := Run(State(map[], []), ops).log;
      && |log| == 2 && SameKey(log[0], log[1]) && log[1].cooldown == cooldown
      && log[1].checkClock - log[0].stampClock == (cooldown - 1) * TICKS + 1
  {
    Shortfall(TICKS - 1, cooldown);
    ops := TwoGrants(Kit("k", [], cooldown, ""), 0, TICKS - 1, OpensAt(TICKS - 1, cooldown));
  }

  // ----- The rate this allows -----

  function Stamps(log: seq<Grant>, player: string, kit: string): seq<int> {
    if log == [] then []
    else
      var earlier := Stamps(log[..|log| - 1], player, kit);
      var last := log[|log| - 1];
      if last.player == player && last.kit == kit then earlier + [last.StampedAt()] else earlier
  }

  predicate AlwaysCooldown(ops: seq<Op>, kit: string, c: int) {
    forall i :: 0 <= i < |ops| && ops[i].Define? && ops[i].name == kit ==> ops[i].kit.cooldownSeconds == c
  }

  ghost predicate CooldownInv(s: State, kit: string, c: int) {
    && (kit in s.kits ==> s.kits[kit].cooldownSeconds == c)
    && forall i :: 0 <= i < |s.log| && s.log[i].kit == kit ==> s.log[i].cooldown == c
  }

  lemma {:induction false} RunKeepsCooldown(s: State, ops: seq<Op>, kit: string, c: int)
    requires CooldownInv(s, kit, c) && AlwaysCooldown(ops, kit, c)
    ensures CooldownInv(Run(s, ops), kit, c)
    decreases |ops|
  {
    if ops != [] {
      assert CooldownInv(Apply(s, ops[0]), kit, c);
      RunKeepsCooldown(Apply(s, ops[0]), ops[1..], kit, c);
    }
  }

  lemma {:induction false} LastStamp(log: seq<Grant>, player: string, kit: string)
    ensures var ts := Stamps(log, player, kit);
            if ts == [] then forall i :: 0 <= i < |log| ==> !(log[i].player == player && log[i].kit == kit)
            else exists i :: 0 <= i < |log| && log[i].player == player && log[i].kit == kit && log[i].StampedAt() == ts[|ts| - 1]
    decreases |log|
  {
    if log != [] {
      LastStamp(log[..|log| - 1], player, kit);
    }
  }

  predicate Spread(ts: seq<int>, c: int) {
    forall i, j :: 0 <= i <= j < |ts| ==> ts[j] - ts[i] >= (j - i) * c
  }

  lemma SpreadSnoc(ts: seq<int>, x: int, c: int)
    requires Spread(ts, c) && (ts == [] || x - ts[|ts| - 1] >= c)
    ensures Spread(ts + [x], c)
  {
    forall i, j | 0 <= i <= j < |ts| + 1 ensures (ts + [x])[j] - (ts + [x])[i] >= (j - i) * c {
      if j < |ts| {
        assert ts[j] - ts[i] >= (j - i) * c;
      } else if i < j {
        var last := |ts| - 1;
        assert ts[last] - ts[i] >= (last - i) * c;
        assert (j - i) * c == (last - i) * c + c;
      }
    }
  }

  lemma {:induction false} StampsSpread(log: seq<Grant>, clock: int, player: string, kit: string, c: int)
    requires Inv(log, clock)
    requires forall i :: 0 <= i < |log| && log[i].kit == kit ==> log[i].cooldown == c
    ensures Spread(Stamps(log, player, kit), c)
    decreases |log|
  {
    if log != [] {
      var front, last := log[..|log| - 1], log[|log| - 1];
      StampsSpread(front, clock, player, kit, c);
      if last.player == player && last.kit == kit {
        var ts := Stamps(front, player, kit);
        LastStamp(front, player, kit);
        if ts != [] {
          var m :| 0 <= m < |front| && front[m].player == player && front[m].kit == kit && front[m].StampedAt() == ts[|ts| - 1];
          assert SameKey(log[m], log[|log| - 1]);
        }
        SpreadSnoc(ts, last.StampedAt(), c);
      }
    }
  }

  lemma MulLess(a: int, b: int, c: int)
    requires c > 0 && a * c < b * c
    ensures a < b
  {
  }

  lemma Quotient(n: nat, c: int, w: nat)
    requires c > 0 && n * c <= w
    ensures n <= w / c
  {
    var q := w / c;
    assert (q + 1) * c == q * c + c > w;
    MulLess(n, q + 1, c);
  }

  /** With a constant positive cooldown c, grants i to j that fall within w seconds of each other number
      at most w / c + 1. */
  lemma WindowBound(start: int, ops: seq<Op>, player: string, kit: string, c: int, w: nat, i: nat, j: nat)
    requires c > 0 && Monotone(start, ops) && AlwaysCooldown(ops, kit, c)
    requires var ts := Stamps(Run(State(map[], []), ops).log, player, kit); i <= j < |ts| && ts[j] - ts[i] <= w
    ensures j - i + 1 <= w / c + 1
  {
    var s := Run(State(map[], []), ops);
    var clock := RunKeepsInv(State(map[], []), start, ops);
    RunKeepsCooldown(State(map[], []), ops, kit, c);
    StampsSpread(s.log, clock, player, kit, c);
    Quotient(j - i, c, w);
  }

}
