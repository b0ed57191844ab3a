/** The operator's trigger sets: which chains come up, where a monitor message goes, what a
    removal clears, and how the sets follow the log of messages. */
module Monitoring {
  import opened Collections
  import opened Strings
  import opened TriggerIds

  // ---------------------------------------------------------------- messages

  datatype Trigger = EventTrigger | BlockTrigger | CronTrigger | FixedTimeTrigger | OtherTrigger

  /** A message of the aggregator's stream, or an answer saying that a fired task is
      exhausted. `accepted` is the trigger engine's answer to the registration. */
  datatype Message =
    | Monitor(task: string, chain: int, trigger: Trigger, accepted: bool)
    | MonitorIncomplete
    | Remove(metadataTask: Option<string>, messageID: string)
    | BlockExhausted(task: string)
    | EventExhausted(task: string)
    | TimeExhausted(task: string)

  /** One of the operator's trigger sets. */
  datatype Slot = BlockSlot(chain: int) | EventSlot(chain: int) | TimeSlot

  /** Which task a removal names: its metadata, or else a message id that looks like one. */
  function RemovedTask(metadataTask: Option<string>, messageID: string): Option<string> {
    if metadataTask.Some? then metadataTask else if IsValidTaskIDFormat(messageID) then Some(messageID) else None
  }

  // ---------------------------------------------------------------- what a message means

  /** The sets of every chain, and the chain-free time set. */
  datatype Sets = Sets(order: seq<int>, blocks: map<int, set<string>>, events: map<int, set<string>>,
    times: set<string>)

  /** What the init loop establishes and every message keeps. */
  ghost predicate Wired(s: Sets) {
    && Distinct(s.order) && s.order != []
    && (forall c :: c in s.order <==> c in s.blocks)
    && s.events.Keys == s.blocks.Keys
  }

  /** Wiring in progress: every chain so far has empty sets. */
  ghost predicate Blank(s: Sets) {
    && Distinct(s.order) && s.times == {}
    && (forall c :: c in s.order <==> c in s.blocks)
    && s.events.Keys == s.blocks.Keys
    && forall c :: c in s.blocks ==> s.blocks[c] == {} && s.events[c] == {}
  }

  lemma BlankWired(s: Sets)
    requires Blank(s)
    ensures s.blocks.Keys == {} <==> s.order == []
    ensures s.order != [] ==> Wired(s)
    ensures forall slot, task :: !Holds(s, slot, task)
  {
    if s.order != [] {
      var c := s.order[0];
      assert c in s.order && c in s.blocks;
    } else {
      forall c ensures c !in s.blocks.Keys { assert c !in s.order; }
    }
  }

  predicate Holds(s: Sets, slot: Slot, task: string) {
    match slot
    case BlockSlot(c) => c in s.blocks && task in s.blocks[c]
    case EventSlot(c) => c in s.events && task in s.events[c]
    case TimeSlot => task in s.times
  }

  /** The set a registration goes to: 0 means the first chain, an id no chain has means
      nowhere. */
  function Target(order: seq<int>, chain: int, trigger: Trigger): Option<Slot> {
    var id := if chain == 0 && order != [] then order[0] else chain;
    match trigger
    case EventTrigger => if id in order then Some(EventSlot(id)) else None
    case BlockTrigger => if id in order then Some(BlockSlot(id)) else None
    case CronTrigger => Some(TimeSlot)
    case FixedTimeTrigger => Some(TimeSlot)
    case OtherTrigger => None
  }

  datatype Effect = Adds | Drops | Leaves

  /** What a message does to one task in one set. A registration the time engine rejects
      still drops it: that engine clears the old registration first. */
  function EffectOf(order: seq<int>, m: Message, slot: Slot, task: string): Effect {
    match m
    case Monitor(t, chain, trigger, accepted) =>
      if t != task || Target(order, chain, trigger) != Some(slot) then Leaves
      else if accepted then Adds
      else if slot.TimeSlot? then Drops
      else Leaves
    case MonitorIncomplete => Leaves
    case Remove(metadataTask, id) => if RemovedTask(metadataTask, id) == Some(task) then Drops else Leaves
    case BlockExhausted(t) => if t == task && slot.BlockSlot? then Drops else Leaves
    case EventExhausted(t) => if t == task && slot.EventSlot? then Drops else Leaves
    case TimeExhausted(t) => if t == task && slot.TimeSlot? then Drops else Leaves
  }

  predicate Known(order: seq<int>, slot: Slot) {
    slot.TimeSlot? || slot.chain in order
  }

  ghost predicate Follows(s: Sets, m: Message, s': Sets) {
    && s'.order == s.order
    && forall slot, task :: Known(s.order, slot) ==>
         (Holds(s', slot, task) <==>
           match EffectOf(s.order, m, slot, task)
           case Adds => true
           case Drops => false
           case Leaves => Holds(s, slot, task))
  }

  lemma RemovalFollows(s: Sets, s': Sets, metadataTask: Option<string>, messageID: string, task: string)
    requires RemovedTask(metadataTask, messageID) == Some(task) && s'.order == s.order && s'.times == s.times - {task}
    requires s'.blocks.Keys == s.blocks.Keys && forall c :: c in s.blocks ==> s'.blocks[c] == s.blocks[c] - {task}
    requires s'.events.Keys == s.events.Keys && forall c :: c in s.events ==> s'.events[c] == s.events[c] - {task}
    ensures Follows(s, Remove(metadataTask, messageID), s')
  {
  }

  // ---------------------------------------------------------------- the init loop

  /** One configured chain and how its endpoints answer. */
  datatype ChainConfig = ChainConfig(chainID: int, dials: bool, detected: Option<int>, wsDials: bool)

  /** The chain id is known and is the configured one, if one is configured. */
  predicate Resolves(c: ChainConfig) {
    c.dials && c.detected.Some? && (c.chainID == 0 || c.chainID == c.detected.value)
  }

  predicate ComesUp(c: ChainConfig) {
    Resolves(c) && c.wsDials
  }

  /** The chains that come up, in configured order. */
  function UpIDs(chains: seq<ChainConfig>): seq<int> {
    if chains == [] then []
    else
      var n := |chains| - 1;
      UpIDs(chains[..n]) + if ComesUp(chains[n]) then [chains[n].detected.value] else []
  }

  /** Entry j resolves to a chain that an earlier entry already brought up. */
  predicate Duplicates(chains: seq<ChainConfig>, j: nat)
    requires j < |chains|
  {
    Resolves(chains[j]) && chains[j].detected.value in UpIDs(chains[..j])
  }

  ghost predicate NoDuplicates(chains: seq<ChainConfig>, n: nat)
    requires n <= |chains|
  {
    forall j :: 0 <= j < n ==> !Duplicates(chains, j)
  }

  lemma UpNext(chains: seq<ChainConfig>, i: nat)
    requires i < |chains|
    ensures UpIDs(chains[..i + 1]) == UpIDs(chains[..i]) + if ComesUp(chains[i]) then [chains[i].detected.value] else []
    ensures NoDuplicates(chains, i + 1) <==> NoDuplicates(chains, i) && !Duplicates(chains, i)
    ensures Duplicates(chains, i) <==> Resolves(chains[i]) && chains[i].detected.value in UpIDs(chains[..i])
  {
    assert chains[..i + 1][..i] == chains[..i];
  }

  datatype Startup = NoChains | DuplicateChain(entry: nat) | NoneUp | Ready

  // ---------------------------------------------------------------- the operator

  /** Removes a task from each chain's set, in whatever order the map yields the chains. */
  method RemoveEverywhere(sets: map<int, set<string>>, task: string) returns (r: map<int, set<string>>)
    ensures r.Keys == sets.Keys
    ensures forall c :: c in r ==> r[c] == sets[c] - {task}
  {
    r := sets;
    var rest := sets.Keys;
    while rest != {}
      invariant rest <= r.Keys && r.Keys == sets.Keys
      invariant forall c :: c in r ==> r[c] == if c in rest then sets[c] else sets[c] - {task}
      decreases rest
    {
      Inhabited(rest);
      var c :| c in rest;
      r := r[c := r[c] - {task}];
      rest := rest - {c};
    }
  }

  class Operator {
    var order: seq<int>
    var blocks: map<int, set<string>>
    var events: map<int, set<string>>
    var times: set<string>

    constructor ()
      ensures order == [] && blocks == map[] && events == map[] && times == {}
    {
      order, blocks, events, times := [], map[], map[], {};
    }

    ghost function View(): Sets
      reads this
    {
      Sets(order, blocks, events, times)
    }

    /** One entry of the init loop: skipped when an endpoint does not answer or answers for
        another chain, fatal when its chain is already up. */
    method InitChain(c: ChainConfig) returns (duplicate: bool)
      requires Blank(View())
      modifies this
      ensures Blank(View())
      ensures duplicate == (Resolves(c) && c.detected.value in old(order))
      ensures order == if ComesUp(c) && !duplicate then old(order) + [c.detected.value] else old(order)
    {
      if !c.dials { return false; }
      if c.detected == None { return false; }
      var id := c.detected.value;
      if c.chainID != 0 && c.chainID != id { return false; }
      if id in blocks { return true; }
      if !c.wsDials { return false; }
      blocks := blocks[id := {}];
      events := events[id := {}];
      order := order + [id];
      duplicate := false;
    }

    /** Brings the configured chains up one by one. */
    method InitChains(chains: seq<ChainConfig>) returns (result: Startup)
      modifies this
      ensures result.NoChains? <==> chains == []
      ensures result.DuplicateChain? <==> !NoDuplicates(chains, |chains|)
      ensures result.DuplicateChain? ==> result.entry < |chains| && Duplicates(chains, result.entry)
      ensures result.NoneUp? ==> UpIDs(chains) == []
      ensures result.Ready? ==> Wired(View()) && order == UpIDs(chains)
      ensures result.Ready? ==> forall slot, task :: !Holds(View(), slot, task)
    {
      if chains == [] { return NoChains; }
      order, blocks, events, times := [], map[], map[], {};
      for i := 0 to |chains|
        invariant order == UpIDs(chains[..i]) && Blank(View()) && NoDuplicates(chains, i)
      {
        UpNext(chains, i);
        var duplicate := InitChain(chains[i]);
        if duplicate { return DuplicateChain(i); }
      }
      assert chains[..|chains|] == chains;
      BlankWired(View());
      if blocks.Keys == {} { return NoneUp; }
      result := Ready;
    }

    /** triggersForChain */
    function TriggersForChain(chain: int): Option<int>
      reads this
    {
      if blocks.Keys == {} then None
      else if chain == 0 && |order| > 0 then if order[0] in blocks then Some(order[0]) else None
      else if chain in blocks then Some(chain) else None
    }

    method AddEventCheck(id: int, task: string, accepted: bool)
      requires id in events
      modifies this`events
      ensures events == if accepted then old(events)[id := old(events)[id] + {task}] else old(events)
    {
      if accepted { events := events[id := events[id] + {task}]; }
    }

    method AddBlockCheck(id: int, task: string, accepted: bool)
      requires id in blocks
      modifies this`blocks
      ensures blocks == if accepted then old(blocks)[id := old(blocks)[id] + {task}] else old(blocks)
    {
      if accepted { blocks := blocks[id := blocks[id] + {task}]; }
    }

    /** The time engine drops an existing registration before it looks at the new one. */
    method AddTimeCheck(task: string, accepted: bool)
      modifies this`times
      ensures times == if accepted then old(times) + {task} else old(times) - {task}
    {
      times := times - {task};
      if accepted { times := times + {task}; }
    }

    method RemoveBlockCheck(task: string)
      modifies this`blocks
      ensures blocks.Keys == old(blocks).Keys
      ensures forall c :: c in blocks ==> blocks[c] == old(blocks)[c] - {task}
    {
      blocks := RemoveEverywhere(blocks, task);
    }

    method RemoveEventCheck(task: string)
      modifies this`events
      ensures events.Keys == old(events).Keys
      ensures forall c :: c in events ==> events[c] == old(events)[c] - {task}
    {
      events := RemoveEverywhere(events, task);
    }

    method HandleEvent(task: string, chain: int, accepted: bool)
      requires Wired(View())
      modifies this
      ensures Wired(View()) && Follows(old(View()), Monitor(task, chain, EventTrigger, accepted), View())
    {
      var chainSet := TriggersForChain(chain);
      if chainSet.Some? { AddEventCheck(chainSet.value, task, accepted); }
    }

    method HandleBlock(task: string, chain: int, accepted: bool)
      requires Wired(View())
      modifies this
      ensures Wired(View()) && Follows(old(View()), Monitor(task, chain, BlockTrigger, accepted), View())
    {
      var chainSet := TriggersForChain(chain);
      if chainSet.Some? { AddBlockCheck(chainSet.value, task, accepted); }
    }

    method HandleMonitor(task: string, chain: int, trigger: Trigger, accepted: bool)
      requires Wired(View())
      modifies this
      ensures Wired(View()) && Follows(old(View()), Monitor(task, chain, trigger, accepted), View())
    {
      match trigger
      case EventTrigger => HandleEvent(task, chain, accepted);
      case BlockTrigger => HandleBlock(task, chain, accepted);
      case CronTrigger => AddTimeCheck(task, accepted);
      case FixedTimeTrigger => AddTimeCheck(task, accepted);
      case OtherTrigger =>
    }

    /** processMessage for a disabled or deleted task. */
    method HandleRemoval(metadataTask: Option<string>, messageID: string)
      requires Wired(View())
      modifies this
      ensures Wired(View()) && Follows(old(View()), Remove(metadataTask, messageID), View())
    {
      var task;
      if metadataTask.Some? {
        task := metadataTask.value;
      } else {
        if !IsValidTaskIDFormat(messageID) { return; }
        task := messageID;
      }
      ghost var before := View();
      RemoveEventCheck(task);
      RemoveBlockCheck(task);
      times := times - {task};
      RemovalFollows(before, View(), metadataTask, messageID, task);
    }

    method Handle(m: Message)
      requires Wired(View())
      modifies this
      ensures Wired(View()) && Follows(old(View()), m, View())
    {
      match m
      case Monitor(task, chain, trigger, accepted) => HandleMonitor(task, chain, trigger, accepted);
      case MonitorIncomplete =>
      case Remove(metadataTask, id) => HandleRemoval(metadataTask, id);
      case BlockExhausted(task) => RemoveBlockCheck(task);
      case EventExhausted(task) => RemoveEventCheck(task);
      case TimeExhausted(task) => times := times - {task};
    }

    /** Any interleaving of the message stream and the exhausted answers, from start-up. */
    method HandleAll(log: seq<Message>)
      requires Wired(View()) && forall slot, task :: !Holds(View(), slot, task)
      modifies this
      ensures Wired(View()) && order == old(order)
      ensures forall slot, task :: Known(order, slot) ==>
              (Holds(View(), slot, task) <==> Registered(order, log, slot, task))
    {
      for i := 0 to |log|
        invariant Wired(View()) && order == old(order)
        invariant forall slot, task :: Known(order, slot) ==>
                  (Holds(View(), slot, task) <==> Registered(order, log[..i], slot, task))
      {
        ghost var before := View();
        Handle(log[i]);
        LogStep(before, View(), log[..i], log[i]);
        assert log[..i + 1] == log[..i] + [log[i]];
      }
      assert log[..|log|] == log;
    }
  }

  // ---------------------------------------------------------------- the message log

  /** A successful add for the set came after the last message that drops this task. */
  ghost predicate Registered(order: seq<int>, log: seq<Message>, slot: Slot, task: string) {
    exists i :: 0 <= i < |log| && EffectOf(order, log[i], slot, task) == Adds
      && forall j :: i < j < |log| ==> EffectOf(order, log[j], slot, task) != Drops
  }

  lemma RegisteredNext(order: seq<int>, log: seq<Message>, m: Message, slot: Slot, task: string)
    ensures Registered(order, log + [m], slot, task) <==>
            match EffectOf(order, m, slot, task)
            case Adds => true
            case Drops => false
            case Leaves => Registered(order, log, slot, task)
  {
    var all := log + [m];
    assert all[|log|] == m && forall i :: 0 <= i < |log| ==> all[i] == log[i];
    if Registered(order, log, slot, task) && EffectOf(order, m, slot, task) == Leaves {
      var i :| 0 <= i < |log| && EffectOf(order, log[i], slot, task) == Adds
        && forall j :: i < j < |log| ==> EffectOf(order, log[j], slot, task) != Drops;
      assert EffectOf(order, all[i], slot, task) == Adds;
    }
  }

  /** The sets keep up with the log. */
  lemma LogStep(s: Sets, s': Sets, log: seq<Message>, m: Message)
    requires Follows(s, m, s')
    requires forall slot, task :: Known(s.order, slot) ==>
             (Holds(s, slot, task) <==> Registered(s.order, log, slot, task))
    ensures forall slot, task :: Known(s.order, slot) ==>
            (Holds(s', slot, task) <==> Registered(s.order, log + [m], slot, task))
  {
    forall slot, task | Known(s.order, slot)
      ensures Holds(s', slot, task) <==> Registered(s.order, log + [m], slot, task)
    {
      RegisteredNext(s.order, log, m, slot, task);
    }
  }

  /** A removal that names a task clears it from every set of every chain, and leaves every
      other task alone. */
  lemma RemovalClears(order: seq<int>, log: seq<Message>, metadataTask: Option<string>, messageID: string, slot: Slot,
                      task: string)
    ensures Registered(order, log + [Remove(metadataTask, messageID)], slot, task) <==>
            RemovedTask(metadataTask, messageID) != Some(task) && Registered(order, log, slot, task)
  {
    RegisteredNext(order, log, Remove(metadataTask, messageID), slot, task);
  }

  /** A block or event registration for a chain the operator does not have changes nothing. */
  lemma UnsupportedChain(order: seq<int>, log: seq<Message>, t: string, chain: int, trigger: Trigger, accepted: bool,
                         slot: Slot, task: string)
    requires trigger.BlockTrigger? || trigger.EventTrigger?
    requires chain !in order && (chain == 0 ==> order == [])
    ensures Registered(order, log + [Monitor(t, chain, trigger, accepted)], slot, task) <==>
            Registered(order, log, slot, task)
  {
    RegisteredNext(order, log, Monitor(t, chain, trigger, accepted), slot, task);
  }

  /** A rejected registration keeps what was there, except in the time set, which loses the
      task it already had. */
  lemma RejectedRegistration(order: seq<int>, log: seq<Message>, t: string, chain: int, trigger: Trigger, slot: Slot,
                             task: string)
    ensures Registered(order, log + [Monitor(t, chain, trigger, false)], slot, task) <==>
            && Registered(order, log, slot, task)
            && !(task == t && slot.TimeSlot? && (trigger.CronTrigger? || trigger.FixedTimeTrigger?))
  {
    RegisteredNext(order, log, Monitor(t, chain, trigger, false), slot, task);
  }
}
