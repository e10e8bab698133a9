/** Unloading modules when their tasks exit: a parent puts the module on a list before it connects its SIGCHLD
    handler, the handler takes it off again, and a failing sigaction() makes the parent take it back. */
module Unload {

  /** A module on the list, with the process id saved in it. */
  datatype Entry<B> = Entry(pid: int, bin: B)

  /** The place of the first entry with process id `pid`; the length of the list if there is none. */
  function Find<B>(list: seq<Entry<B>>, pid: int): (i: nat)
    ensures i <= |list| && (i < |list| ==> list[i].pid == pid)
    ensures forall j :: 0 <= j < i ==> list[j].pid != pid
  {
    if list == [] then 0 else if list[0].pid == pid then 0 else 1 + Find(list[1..], pid)
  }

  function Drop<B>(list: seq<Entry<B>>, i: nat): seq<Entry<B>> {
    if i < |list| then list[..i] + list[i + 1..] else list
  }

  /** unload_list_remove: the list afterwards. */
  function Removed<B>(list: seq<Entry<B>>, pid: int): seq<Entry<B>> {
    Drop(list, Find(list, pid))
  }

  predicate Holds<B(==)>(list: seq<Entry<B>>, bin: B) {
    exists i :: 0 <= i < |list| && list[i].bin == bin
  }

  // ----- the steps of the protocol -----

  type Task = nat

  /** A call of schedule_unload between adding to the list and its end. */
  datatype Call<B> = Added(pid: int, bin: B) | Failed(pid: int, bin: B)

  /** A running child, with the module that is to be unloaded for it, if any. */
  datatype Child<B> = Plain(parent: Task) | Scheduled(parent: Task, bin: B)

  /** `handling` are the tasks with the SIGCHLD handler connected; `unloaded` are the entries whose modules
      were unloaded and freed, in order.  `stale` is history: the modules on the list whose child was gone when it was
      too early for the handler. */
  datatype State<B> = State(list: seq<Entry<B>>, handling: set<Task>, children: map<int, Child<B>>,
                            calls: map<Task, Call<B>>, unloaded: seq<Entry<B>>, stale: set<B>)

  function Start<B>(): State<B> {
    State([], {}, map[], map[], [], {})
  }

  /** A child starts; schedule_unload adds to the list; its sigaction() ends; it takes back what it added;
      a child exits. */
  datatype Event<B> = Spawn(pid: int, parent: Task) | Add(task: Task, pid: int, bin: B)
                    | Connect(task: Task, ok: bool) | Withdraw(task: Task) | Exit(pid: int)

  predicate Named<B>(s: State<B>, pid: int) {
    exists t :: t in s.calls && s.calls[t].pid == pid
  }

  /** What can happen.  A process id is not that of two running children, nor given to a new child while a call
      of schedule_unload names it; a module is scheduled by the parent of its task, and not while it is on the list or
      after it was freed. */
  predicate Enabled<B(==)>(s: State<B>, e: Event<B>) {
    match e
    case Spawn(pid, _) => pid !in s.children && !Named(s, pid)
    case Add(task, pid, bin) =>
      && task !in s.calls && !Named(s, pid) && (pid in s.children ==> s.children[pid] == Plain(task))
      && !Holds(s.list, bin) && !Holds(s.unloaded, bin)
    case Connect(task, _) => task in s.calls && s.calls[task].Added?
    case Withdraw(task) => task in s.calls && s.calls[task].Failed?
    case Exit(pid) => pid in s.children
  }

  function Step<B(==)>(s: State<B>, e: Event<B>): State<B>
    requires Enabled(s, e)
  {
    match e
    case Spawn(pid, parent) => s.(children := s.children[pid := Plain(parent)])
    case Add(task, pid, bin) => StepAdd(s, task, pid, bin)
    case Connect(task, ok) => StepConnect(s, task, ok)
    case Withdraw(task) => StepWithdraw(s, task)
    case Exit(pid) => StepExit(s, pid)
  }

  function StepAdd<B(==)>(s: State<B>, task: Task, pid: int, bin: B): State<B> {
    s.(list := [Entry(pid, bin)] + s.list,
       calls := s.calls[task := Added(pid, bin)],
       children := if pid in s.children then s.children[pid := Scheduled(task, bin)] else s.children,
       stale := if pid in s.children then s.stale else s.stale + {bin})
  }

  function StepConnect<B>(s: State<B>, task: Task, ok: bool): State<B>
    requires task in s.calls
  {
    if ok then s.(handling := s.handling + {task}, calls := s.calls - {task})
    else s.(calls := s.calls[task := Failed(s.calls[task].pid, s.calls[task].bin)])
  }

  /** What unload_list_remove returns, as a set: the module found under `pid`. */
  function FoundBin<B(==)>(list: seq<Entry<B>>, pid: int): set<B> {
    var i := Find(list, pid);
    if i < |list| then {list[i].bin} else {}
  }

  function StepWithdraw<B(==)>(s: State<B>, task: Task): State<B>
    requires task in s.calls
  {
    var pid := s.calls[task].pid;
    s.(list := Removed(s.list, pid),
       calls := s.calls - {task},
       stale := s.stale - FoundBin(s.list, pid),
       children := if pid in s.children then s.children[pid := Plain(s.children[pid].parent)] else s.children)
  }

  /** The handler takes the first entry with the process id of the child, unloads and frees it. */
  function StepExit<B(==)>(s: State<B>, pid: int): State<B>
    requires pid in s.children
  {
    var child := s.children[pid];
    var gone := s.(children := s.children - {pid});
    if child.parent in s.handling then
      var i := Find(s.list, pid);
      gone.(list := Removed(s.list, pid), stale := s.stale - FoundBin(s.list, pid),
            unloaded := if i < |s.list| then s.unloaded + [s.list[i]] else s.unloaded)
    else if child.Scheduled? then gone.(stale := s.stale + {child.bin})
    else gone
  }

  // ----- what every step keeps -----

  ghost predicate Distinct<B>(list: seq<Entry<B>>) {
    forall i, j :: 0 <= i < j < |list| ==> list[i].bin != list[j].bin
  }

  /** The entry that is found under `pid` is that of `bin`. */
  ghost predicate Finds<B>(list: seq<Entry<B>>, pid: int, bin: B) {
    Find(list, pid) < |list| && list[Find(list, pid)].bin == bin
  }

  /** No module is twice on the list, or unloaded twice, or both. */
  ghost predicate Once<B(!new)>(s: State<B>) {
    && Distinct(s.list) && Distinct(s.unloaded)
    && (forall b :: Holds(s.list, b) ==> !Holds(s.unloaded, b))
  }

  /** The list holds the modules of the running children for which one is scheduled, and the stale ones; and each
      of the former is the one found under its process id. */
  ghost predicate Waiting<B(!new)>(s: State<B>) {
    && (forall b :: b in s.stale ==> Holds(s.list, b))
    && (forall i :: 0 <= i < |s.list| && s.list[i].bin !in s.stale ==>
          s.list[i].pid in s.children && s.children[s.list[i].pid].Scheduled?
          && s.children[s.list[i].pid].bin == s.list[i].bin)
    && (forall p :: p in s.children && s.children[p].Scheduled? ==>
          Finds(s.list, p, s.children[p].bin) && s.children[p].bin !in s.stale)
  }

  /** Where a call of schedule_unload stands: its child is running, or gone too early, or gone and unloaded. */
  ghost predicate CallStands<B>(s: State<B>, task: Task, c: Call<B>) {
    if c.pid in s.children then s.children[c.pid] == Scheduled(task, c.bin)
    else if c.bin in s.stale then Finds(s.list, c.pid, c.bin)
    else Holds(s.unloaded, c.bin)
  }

  ghost predicate CallsStand<B>(s: State<B>) {
    && (forall t :: t in s.calls ==> CallStands(s, t, s.calls[t]))
    && (forall t, u :: t in s.calls && u in s.calls && t != u ==> s.calls[t].pid != s.calls[u].pid)
  }

  ghost predicate Inv<B(!new)>(s: State<B>) {
    Once(s) && Waiting(s) && CallsStand(s)
  }

  lemma StartInv<B(!new)>()
    ensures Inv(Start<B>())
  {
  }

  // ----- facts about the list -----

  lemma FindAfterAdd<B>(list: seq<Entry<B>>, e: Entry<B>, pid: int)
    ensures Find([e] + list, pid) == if e.pid == pid then 0 else 1 + Find(list, pid)
  {
    assert ([e] + list)[1..] == list;
  }

  lemma FindUnique<B>(list: seq<Entry<B>>, pid: int, i: nat)
    requires i <= |list| && (i < |list| ==> list[i].pid == pid)
    requires forall j :: 0 <= j < i ==> list[j].pid != pid
    ensures Find(list, pid) == i
  {
  }

  /** Taking out the entry found under one process id leaves what is found under any other. */
  lemma FindAfterDrop<B>(list: seq<Entry<B>>, pid: int, other: int, bin: B)
    requires pid != other && Finds(list, other, bin)
    ensures Finds(Removed(list, pid), other, bin)
  {
    var i := Find(list, pid);
    var j := Find(list, other);
    var k := if j < i then j else if i < |list| then j - 1 else j;
    FindUnique(Removed(list, pid), other, k);
  }

  lemma HoldsAfterDrop<B>(list: seq<Entry<B>>, i: nat, bin: B)
    requires Distinct(list) && i < |list|
    ensures Holds(Drop(list, i), bin) <==> Holds(list, bin) && list[i].bin != bin
    ensures Distinct(Drop(list, i))
  {
    var d := Drop(list, i);
    if Holds(list, bin) && list[i].bin != bin {
      var k :| 0 <= k < |list| && list[k].bin == bin;
      assert d[if k < i then k else k - 1].bin == bin;
    }
    if Holds(d, bin) {
      var k :| 0 <= k < |d| && d[k].bin == bin;
      assert d[k] == list[if k < i then k else k + 1];
    }
  }

  lemma HoldsAfterAdd<B>(list: seq<Entry<B>>, e: Entry<B>, bin: B)
    ensures Holds([e] + list, bin) <==> Holds(list, bin) || e.bin == bin
    ensures Holds(list + [e], bin) <==> Holds(list, bin) || e.bin == bin
  {
    if Holds(list, bin) {
      var k :| 0 <= k < |list| && list[k].bin == bin;
      assert ([e] + list)[k + 1].bin == bin && (list + [e])[k].bin == bin;
    }
    assert ([e] + list)[0] == e && (list + [e])[|list|] == e;
    if Holds([e] + list, bin) {
      var k :| 0 <= k < |[e] + list| && ([e] + list)[k].bin == bin;
      assert k == 0 || ([e] + list)[k] == list[k - 1];
    }
    if Holds(list + [e], bin) {
      var k :| 0 <= k < |list + [e]| && (list + [e])[k].bin == bin;
      assert k == |list| || (list + [e])[k] == list[k];
    }
  }

  lemma DistinctAfterAdd<B>(list: seq<Entry<B>>, e: Entry<B>)
    requires Distinct(list) && !Holds(list, e.bin)
    ensures Distinct([e] + list) && Distinct(list + [e])
  {
    forall i, j | 0 <= i < j < |list| + 1
      ensures ([e] + list)[i].bin != ([e] + list)[j].bin && (list + [e])[i].bin != (list + [e])[j].bin
    {
      assert ([e] + list)[j] == list[j - 1] && (list + [e])[i] == list[i];
    }
  }

  // ----- every step keeps the invariant -----

  lemma SpawnKeeps<B(!new)>(s: State<B>, pid: int, parent: Task)
    requires Inv(s) && Enabled(s, Spawn(pid, parent))
    ensures Inv(Step(s, Spawn(pid, parent)))
  {
    hide Find;
    var t := Step(s, Spawn(pid, parent));
    assert forall u :: u in s.calls ==> s.calls[u].pid != pid;
    assert forall u :: u in t.calls ==> CallStands(s, u, s.calls[u]) ==> CallStands(t, u, t.calls[u]);
  }

  lemma AddOnce<B(!new)>(s: State<B>, task: Task, pid: int, bin: B)
    requires Inv(s) && Enabled(s, Add(task, pid, bin))
    ensures Once(StepAdd(s, task, pid, bin))
  {
    hide Find;
    var e := Entry(pid, bin);
    forall b ensures Holds([e] + s.list, b) <==> Holds(s.list, b) || bin == b {
      HoldsAfterAdd(s.list, e, b);
    }
    DistinctAfterAdd(s.list, e);
  }

  lemma AddWaiting<B(!new)>(s: State<B>, task: Task, pid: int, bin: B)
    requires Inv(s) && Enabled(s, Add(task, pid, bin))
    ensures Waiting(StepAdd(s, task, pid, bin))
  {
    hide Find, Holds;
    var e := Entry(pid, bin);
    var t := StepAdd(s, task, pid, bin);
    forall b ensures Holds(t.list, b) <==> Holds(s.list, b) || bin == b {
      HoldsAfterAdd(s.list, e, b);
    }
    forall p | p in t.children && t.children[p].Scheduled?
      ensures Finds(t.list, p, t.children[p].bin) && t.children[p].bin !in t.stale
    {
      FindAfterAdd(s.list, e, p);
      if p != pid {
        FindsHolds(s.list, p, s.children[p].bin);
        assert t.list[1 + Find(s.list, p)] == s.list[Find(s.list, p)];
      }
    }
    forall i | 0 <= i < |t.list| && t.list[i].bin !in t.stale
      ensures t.list[i].pid in t.children && t.children[t.list[i].pid].Scheduled?
              && t.children[t.list[i].pid].bin == t.list[i].bin
    {
      assert i > 0 ==> t.list[i] == s.list[i - 1];
    }
  }

  lemma FindsHolds<B>(list: seq<Entry<B>>, pid: int, bin: B)
    requires Finds(list, pid, bin)
    ensures Holds(list, bin)
  {
    hide Find;
  }

  lemma AddCalls<B(!new)>(s: State<B>, task: Task, pid: int, bin: B)
    requires Inv(s) && Enabled(s, Add(task, pid, bin))
    ensures CallsStand(StepAdd(s, task, pid, bin))
  {
    hide Find;
    var e := Entry(pid, bin);
    var t := StepAdd(s, task, pid, bin);
    FindAfterAdd(s.list, e, pid);
    forall u | u in t.calls ensures CallStands(t, u, t.calls[u]) {
      if u != task {
        var c := s.calls[u];
        assert CallStands(s, u, c) && c.pid != pid;
        FindAfterAdd(s.list, e, c.pid);
        if c.pid !in s.children {
          if c.bin in s.stale {
            assert t.list[1 + Find(s.list, c.pid)] == s.list[Find(s.list, c.pid)];
          } else {
            assert c.bin != bin;
          }
        }
      }
    }
  }

  lemma ConnectKeeps<B(!new)>(s: State<B>, task: Task, ok: bool)
    requires Inv(s) && Enabled(s, Connect(task, ok))
    ensures Inv(StepConnect(s, task, ok))
  {
    hide Find;
    var t := StepConnect(s, task, ok);
    forall u | u in t.calls ensures CallStands(t, u, t.calls[u]) {
      assert CallStands(s, u, s.calls[u]);
    }
  }

  /** Taking an entry off the list, and whether or not it then is unloaded. */
  lemma RemoveOnce<B(!new)>(s: State<B>, t: State<B>, pid: int)
    requires Once(s) && t.list == Removed(s.list, pid)
    requires var i := Find(s.list, pid);
             t.unloaded == s.unloaded || (i < |s.list| && t.unloaded == s.unloaded + [s.list[i]])
    ensures Once(t)
  {
    hide Find;
    var i := Find(s.list, pid);
    if i < |s.list| {
      var e := s.list[i];
      assert Holds(s.list, e.bin);
      forall b
        ensures Holds(t.list, b) <==> Holds(s.list, b) && e.bin != b
        ensures Holds(s.unloaded + [e], b) <==> Holds(s.unloaded, b) || e.bin == b
        ensures Distinct(t.list)
      {
        HoldsAfterDrop(s.list, i, b);
        HoldsAfterAdd(s.unloaded, e, b);
      }
      DistinctAfterDrop(s.list, i);
      DistinctAfterAdd(s.unloaded, e);
    }
  }

  lemma DistinctAfterDrop<B>(list: seq<Entry<B>>, i: nat)
    requires Distinct(list) && i < |list|
    ensures Distinct(Drop(list, i))
  {
    HoldsAfterDrop(list, i, list[i].bin);
  }

  /** After an entry is taken off, what is left still waits, if `pid` has no module scheduled any more. */
  lemma RemoveWaiting<B(!new)>(s: State<B>, t: State<B>, pid: int)
    requires Once(s) && Waiting(s)
    requires t.list == Removed(s.list, pid) && t.stale == s.stale - FoundBin(s.list, pid)
    requires pid in t.children ==> t.children[pid].Plain?
    requires forall p :: p != pid ==> (p in t.children <==> p in s.children)
    requires forall p :: p != pid && p in t.children ==> t.children[p] == s.children[p]
    ensures Waiting(t)
  {
    hide Find;
    var i := Find(s.list, pid);
    forall b | b in t.stale ensures Holds(t.list, b) {
      if i < |s.list| {
        HoldsAfterDrop(s.list, i, b);
      }
    }
    forall p | p in t.children && t.children[p].Scheduled?
      ensures Finds(t.list, p, t.children[p].bin) && t.children[p].bin !in t.stale
    {
      FindAfterDrop(s.list, pid, p, s.children[p].bin);
    }
    forall j | 0 <= j < |t.list| && t.list[j].bin !in t.stale
      ensures t.list[j].pid in t.children && t.children[t.list[j].pid].Scheduled?
              && t.children[t.list[j].pid].bin == t.list[j].bin
    {
      var k := if j < i then j else if i < |s.list| then j + 1 else j;
      assert t.list[j] == s.list[k];
      assert i < |s.list| ==> k != i && s.list[k].bin != s.list[i].bin;
      assert s.list[k].bin !in s.stale;
      assert pid in s.children && s.children[pid].Scheduled? ==> Finds(s.list, pid, s.children[pid].bin);
      assert s.list[k].pid != pid;
    }
  }

  lemma RemoveCalls<B(!new)>(s: State<B>, t: State<B>, pid: int)
    requires Once(s) && Waiting(s) && CallsStand(s)
    requires t.list == Removed(s.list, pid) && t.stale == s.stale - FoundBin(s.list, pid)
    requires forall p :: p != pid ==> (p in t.children <==> p in s.children)
    requires forall p :: p != pid && p in t.children ==> t.children[p] == s.children[p]
    requires forall b :: Holds(s.unloaded, b) ==> Holds(t.unloaded, b)
    requires forall u :: u in t.calls ==> u in s.calls && t.calls[u] == s.calls[u]
    requires forall u :: u in t.calls && t.calls[u].pid == pid ==> CallStands(t, u, t.calls[u])
    ensures CallsStand(t)
  {
    hide Find;
    var i := Find(s.list, pid);
    forall u | u in t.calls ensures CallStands(t, u, t.calls[u]) {
      var c := s.calls[u];
      assert CallStands(s, u, c);
      if c.pid != pid && c.pid !in s.children && c.bin in s.stale {
        FindAfterDrop(s.list, pid, c.pid, c.bin);
        assert FoundBin(s.list, pid) == {} || s.list[i].bin != c.bin by {
          var j := Find(s.list, c.pid);
          assert s.list[j].bin == c.bin && s.list[j].pid == c.pid;
        }
      }
    }
  }

  lemma WithdrawKeeps<B(!new)>(s: State<B>, task: Task)
    requires Inv(s) && Enabled(s, Withdraw(task))
    ensures Inv(StepWithdraw(s, task))
  {
    hide Find, Removed, FoundBin, Once, Waiting, Finds;
    var t := StepWithdraw(s, task);
    var pid := s.calls[task].pid;
    RemoveOnce(s, t, pid);
    RemoveWaiting(s, t, pid);
    RemoveCalls(s, t, pid);
  }

  lemma ExitKeeps<B(!new)>(s: State<B>, pid: int)
    requires Inv(s) && Enabled(s, Exit(pid))
    ensures Inv(StepExit(s, pid))
  {
    hide Find, Removed, FoundBin, Once, Waiting, CallsStand;
    if s.children[pid].parent in s.handling {
      HandledExitKeeps(s, pid);
    } else {
      EarlyExitKeeps(s, pid);
    }
  }

  lemma HandledExitKeeps<B(!new)>(s: State<B>, pid: int)
    requires Inv(s) && pid in s.children && s.children[pid].parent in s.handling
    ensures Inv(StepExit(s, pid))
  {
    hide Find;
    var t := StepExit(s, pid);
    var i := Find(s.list, pid);
    forall b | Holds(s.unloaded, b) ensures Holds(t.unloaded, b) {
      if i < |s.list| {
        HoldsAfterAdd(s.unloaded, s.list[i], b);
      }
    }
    forall u | u in t.calls && t.calls[u].pid == pid ensures CallStands(t, u, t.calls[u]) {
      assert CallStands(s, u, s.calls[u]);
      assert Finds(s.list, pid, s.children[pid].bin);
      assert t.unloaded[|s.unloaded|].bin == s.calls[u].bin;
    }
    RemoveOnce(s, t, pid);
    RemoveWaiting(s, t, pid);
    RemoveCalls(s, t, pid);
  }

  lemma EarlyExitKeeps<B(!new)>(s: State<B>, pid: int)
    requires Inv(s) && pid in s.children && s.children[pid].parent !in s.handling
    ensures Inv(StepExit(s, pid))
  {
    hide Find;
    var t := StepExit(s, pid);
    if s.children[pid].Scheduled? {
      assert Finds(s.list, pid, s.children[pid].bin);
    }
    forall i | 0 <= i < |t.list| && t.list[i].bin !in t.stale
      ensures t.list[i].pid in t.children
    {
      assert s.list[i].bin !in s.stale;
    }
    forall p | p in t.children && t.children[p].Scheduled? ensures t.children[p].bin !in t.stale {
      assert Finds(s.list, p, s.children[p].bin);
      if s.children[pid].Scheduled? {
        var i, j := Find(s.list, p), Find(s.list, pid);
        assert s.list[i].pid == p && s.list[j].pid == pid;
      }
    }
    forall u | u in t.calls ensures CallStands(t, u, t.calls[u]) {
      assert CallStands(s, u, s.calls[u]);
    }
  }

  lemma StepKeeps<B(!new)>(s: State<B>, e: Event<B>)
    requires Inv(s) && Enabled(s, e)
    ensures Inv(Step(s, e))
  {
    hide Find, Removed, FoundBin, Once, Waiting, CallsStand, StepAdd, StepConnect, StepWithdraw, StepExit;
    match e {
      case Spawn(pid, parent) => SpawnKeeps(s, pid, parent);
      case Add(task, pid, bin) =>
        AddOnce(s, task, pid, bin);
        AddWaiting(s, task, pid, bin);
        AddCalls(s, task, pid, bin);
      case Connect(task, ok) => ConnectKeeps(s, task, ok);
      case Withdraw(task) => WithdrawKeeps(s, task);
      case Exit(pid) => ExitKeeps(s, pid);
    }
  }

  // ----- runs -----

  predicate CanRun<B(==)>(s: State<B>, es: seq<Event<B>>)
    decreases |es|
  {
    es == [] || (Enabled(s, es[0]) && CanRun(Step(s, es[0]), es[1..]))
  }

  function Run<B(==)>(s: State<B>, es: seq<Event<B>>): State<B>
    requires CanRun(s, es)
    decreases |es|
  {
    if es == [] then s else Run(Step(s, es[0]), es[1..])
  }

  lemma {:induction false} RunKeeps<B(!new)>(s: State<B>, es: seq<Event<B>>)
    requires Inv(s) && CanRun(s, es)
    ensures Inv(Run(s, es))
    decreases |es|
  {
    hide Inv, Step, Enabled;
    if es != [] {
      StepKeeps(s, es[0]);
      RunKeeps(Step(s, es[0]), es[1..]);
    }
  }

  /** In every interleaving, the list holds the module of exactly those running children for which one is
      scheduled, besides the stale entries; a module is unloaded at most once, and then is off the list. */
  lemma ListIsExact<B(!new)>(es: seq<Event<B>>, pid: int, bin: B)
    requires CanRun(Start<B>(), es)
    ensures var s := Run(Start<B>(), es);
            && (Entry(pid, bin) in s.list && bin !in s.stale
                <==> pid in s.children && s.children[pid].Scheduled? && s.children[pid].bin == bin)
            && Distinct(s.list + s.unloaded)
  {
    hide Step, Enabled, Find;
    StartInv<B>();
    RunKeeps(Start<B>(), es);
    var s := Run(Start<B>(), es);
    if pid in s.children && s.children[pid].Scheduled? && s.children[pid].bin == bin {
      assert Finds(s.list, pid, bin);
      assert s.list[Find(s.list, pid)] == Entry(pid, bin);
    }
    forall i, j | 0 <= i < j < |s.list + s.unloaded|
      ensures (s.list + s.unloaded)[i].bin != (s.list + s.unloaded)[j].bin
    {
      if i < |s.list| <= j {
        assert Holds(s.list, s.list[i].bin);
        assert !Holds(s.unloaded, s.list[i].bin);
      }
    }
  }

  /** An event that is in time: a child is scheduled while it runs, and exits when its parent has the handler. */
  predicate InTime<B>(s: State<B>, e: Event<B>) {
    && (e.Add? ==> e.pid in s.children)
    && (e.Exit? && e.pid in s.children && s.children[e.pid].Scheduled? ==>
          s.children[e.pid].parent in s.handling)
  }

  predicate AllInTime<B(==)>(s: State<B>, es: seq<Event<B>>)
    requires CanRun(s, es)
    decreases |es|
  {
    es == [] || (InTime(s, es[0]) && AllInTime(Step(s, es[0]), es[1..]))
  }

  /** A step leaves an entry behind for which no child runs exactly if it is not in time. */
  lemma StaleIffLate<B(!new)>(s: State<B>, e: Event<B>)
    requires Inv(s) && Enabled(s, e)
    ensures InTime(s, e) ==> Step(s, e).stale <= s.stale
    ensures !InTime(s, e) ==> exists b :: b in Step(s, e).stale - s.stale
  {
    hide Find;
    if !InTime(s, e) {
      var b := if e.Add? then e.bin else s.children[e.pid].bin;
      assert e.Add? && b in s.stale ==> Holds(s.list, b);
      assert b in Step(s, e).stale - s.stale;
    }
  }

  /** So in a run where all is in time the list holds exactly what is scheduled for a running child. */
  lemma {:induction false} InTimeNoStale<B(!new)>(s: State<B>, es: seq<Event<B>>)
    requires Inv(s) && s.stale == {} && CanRun(s, es) && AllInTime(s, es)
    ensures Run(s, es).stale == {}
    decreases |es|
  {
    hide Inv, Step, Enabled, InTime;
    if es != [] {
      StepKeeps(s, es[0]);
      StaleIffLate(s, es[0]);
      InTimeNoStale(Step(s, es[0]), es[1..]);
    }
  }

  /** Only the exit of a child unloads, an entry with its process id, and its own module where one is scheduled
      and its parent has the handler. */
  lemma UnloadsOwn<B(!new)>(s: State<B>, e: Event<B>)
    requires Inv(s) && Enabled(s, e)
    ensures !e.Exit? ==> Step(s, e).unloaded == s.unloaded
    ensures e.Exit? && s.children[e.pid].parent !in s.handling ==> Step(s, e).unloaded == s.unloaded
    ensures e.Exit? && s.children[e.pid].parent in s.handling && s.children[e.pid].Scheduled? ==>
              Step(s, e).unloaded == s.unloaded + [Entry(e.pid, s.children[e.pid].bin)]
    ensures e.Exit? && s.children[e.pid].parent in s.handling && s.children[e.pid].Plain?
            && Step(s, e).unloaded != s.unloaded ==>
              exists b :: b in s.stale && Step(s, e).unloaded == s.unloaded + [Entry(e.pid, b)]
  {
    hide Find;
    if e.Exit? && s.children[e.pid].parent in s.handling {
      var i := Find(s.list, e.pid);
      if s.children[e.pid].Scheduled? {
        assert Finds(s.list, e.pid, s.children[e.pid].bin);
      } else if i < |s.list| {
        assert s.list[i].bin in s.stale;
        assert s.list[i] == Entry(e.pid, s.list[i].bin);
      }
    }
  }

  /** What a run adds to the list, and what it takes back, the latest first. */
  function AddedBy<B>(es: seq<Event<B>>): seq<Entry<B>> {
    if es == [] then []
    else AddedBy(es[1..]) + if es[0].Add? then [Entry(es[0].pid, es[0].bin)] else []
  }

  function TakenBack<B(==)>(s: State<B>, es: seq<Event<B>>): seq<Entry<B>>
    requires CanRun(s, es)
    decreases |es|
  {
    if es == [] then []
    else TakenBack(Step(s, es[0]), es[1..]) + if es[0].Withdraw? then Taken(s.list, s.calls[es[0].task].pid) else []
  }

  function Taken<B>(list: seq<Entry<B>>, pid: int): seq<Entry<B>> {
    var i := Find(list, pid);
    if i < |list| then [list[i]] else []
  }

  lemma TakenOut<B>(list: seq<Entry<B>>, pid: int)
    ensures multiset(list) == multiset(Removed(list, pid)) + multiset(Taken(list, pid))
  {
    hide Find;
    var i := Find(list, pid);
    if i < |list| {
      assert list == list[..i] + [list[i]] + list[i + 1..];
    }
  }

  lemma StepConserves<B(!new)>(s: State<B>, e: Event<B>)
    requires Enabled(s, e)
    ensures multiset(Step(s, e).list) + multiset(Step(s, e).unloaded)
            + (if e.Withdraw? then multiset(Taken(s.list, s.calls[e.task].pid)) else multiset{})
            == multiset(s.list) + multiset(s.unloaded) + (if e.Add? then multiset{Entry(e.pid, e.bin)} else multiset{})
  {
    hide Find, Removed;
    match e {
      case Exit(pid) => TakenOut(s.list, pid);
      case Withdraw(task) => TakenOut(s.list, s.calls[task].pid);
      case _ =>
    }
  }

  lemma Balance<E>(l: multiset<E>, u: multiset<E>, added: multiset<E>, l1: multiset<E>, u1: multiset<E>,
                   taken: multiset<E>, l2: multiset<E>, u2: multiset<E>, taken2: multiset<E>, added2: multiset<E>)
    requires l1 + u1 + taken == l + u + added
    requires l2 + u2 + taken2 == l1 + u1 + added2
    ensures l2 + u2 + (taken2 + taken) == l + u + (added2 + added)
  {
    assert l2 + u2 + (taken2 + taken) == (l2 + u2 + taken2) + taken;
    assert (l1 + u1 + added2) + taken == (l1 + u1 + taken) + added2;
    assert (l + u + added) + added2 == l + u + (added2 + added);
  }

  /** Nothing is lost and nothing is made up: what is added is on the list, or unloaded, or was taken back. */
  lemma {:induction false} Conserves<B(!new)>(s: State<B>, es: seq<Event<B>>)
    requires CanRun(s, es)
    ensures multiset(Run(s, es).list) + multiset(Run(s, es).unloaded) + multiset(TakenBack(s, es))
            == multiset(s.list) + multiset(s.unloaded) + multiset(AddedBy(es))
    decreases |es|
  {
    hide Step, Taken;
    if es != [] {
      var e := es[0];
      var t := Step(s, e);
      StepConserves(s, e);
      Conserves(t, es[1..]);
      var end := Run(t, es[1..]);
      var added := if e.Add? then multiset{Entry(e.pid, e.bin)} else multiset{};
      var taken := if e.Withdraw? then multiset(Taken(s.list, s.calls[e.task].pid)) else multiset{};
      Balance(multiset(s.list), multiset(s.unloaded), added, multiset(t.list), multiset(t.unloaded), taken,
              multiset(end.list), multiset(end.unloaded), multiset(TakenBack(t, es[1..])), multiset(AddedBy(es[1..])));
      assert multiset(AddedBy(es)) == multiset(AddedBy(es[1..])) + added;
      assert multiset(TakenBack(s, es)) == multiset(TakenBack(t, es[1..])) + taken;
    }
  }

  // ----- the emergency removal -----

  predicate OfTask<B>(e: Event<B>, task: Task) {
    (e.Add? || e.Connect? || e.Withdraw?) && e.task == task
  }

  /** What others do to a call that is between adding and the end of sigaction(). */
  lemma OthersStep<B(!new)>(s: State<B>, e: Event<B>, task: Task)
    requires Inv(s) && Enabled(s, e) && task in s.calls && !OfTask(e, task)
    ensures var t := Step(s, e); var c := s.calls[task];
            && task in t.calls && t.calls[task] == c
            && (task in t.handling <==> task in s.handling)
            && (c.pid !in s.children ==> e != Exit(c.pid) && c.pid !in t.children
                                         && (c.bin in t.stale <==> c.bin in s.stale))
            && (c.pid in s.children && e != Exit(c.pid) ==> c.pid in t.children)
            && (e == Exit(c.pid) ==> c.pid !in t.children && (c.bin in t.stale <==> task !in s.handling))
  {
    hide Find;
    var c := s.calls[task];
    var t := Step(s, e);
    assert CallStands(s, task, c);
    if c.pid in s.children {
      assert s.children[c.pid] == Scheduled(task, c.bin);
    }
    if e.Withdraw? {
      assert s.calls[e.task].pid != c.pid;
      if c.pid !in s.children {
        OtherFound(s, c, s.calls[e.task].pid);
      }
    } else if e.Exit? && e.pid != c.pid && c.pid !in s.children {
      OtherFound(s, c, e.pid);
      if s.children[e.pid].Scheduled? {
        assert Finds(s.list, e.pid, s.children[e.pid].bin);
        OtherBin(s, c, e.pid);
      }
    } else if e.Add? {
      CallUsed(s, task);
    }
  }

  lemma CallUsed<B(!new)>(s: State<B>, task: Task)
    requires Inv(s) && task in s.calls
    ensures Holds(s.list, s.calls[task].bin) || Holds(s.unloaded, s.calls[task].bin)
  {
    hide Find;
    var c := s.calls[task];
    assert CallStands(s, task, c);
    if c.pid in s.children {
      assert Finds(s.list, c.pid, c.bin);
      assert Holds(s.list, c.bin);
    } else if c.bin in s.stale {
      assert Holds(s.list, c.bin);
    }
  }

  /** A removal under another process id does not find the module of a call whose child is gone. */
  lemma OtherFound<B(!new)>(s: State<B>, c: Call<B>, pid: int)
    requires Inv(s) && c.pid !in s.children && pid != c.pid
    requires c.bin in s.stale ==> Finds(s.list, c.pid, c.bin)
    ensures c.bin in s.stale ==> c.bin !in FoundBin(s.list, pid)
  {
    hide Find;
    if c.bin in s.stale {
      var i, j := Find(s.list, c.pid), Find(s.list, pid);
      assert s.list[i].pid == c.pid;
    }
  }

  lemma OtherBin<B(!new)>(s: State<B>, c: Call<B>, pid: int)
    requires Inv(s) && pid in s.children && s.children[pid].Scheduled? && pid != c.pid
    requires c.bin in s.stale || Holds(s.unloaded, c.bin)
    ensures s.children[pid].bin != c.bin
  {
    hide Find;
    assert Finds(s.list, pid, s.children[pid].bin);
    assert Holds(s.list, s.children[pid].bin);
  }

  /** Where a pending call stands decides whether its module is found. */
  lemma FoundIff<B(!new)>(s: State<B>, task: Task)
    requires Inv(s) && task in s.calls
    ensures var c := s.calls[task];
            Finds(s.list, c.pid, c.bin) <==> c.pid in s.children || c.bin in s.stale
  {
    hide Find;
    var c := s.calls[task];
    assert CallStands(s, task, c);
    if c.pid in s.children {
      assert Finds(s.list, c.pid, c.bin);
    } else if c.bin !in s.stale {
      assert Holds(s.unloaded, c.bin);
      assert Finds(s.list, c.pid, c.bin) ==> Holds(s.list, c.bin);
    }
  }

  /** While others act, a pending call's module stays the one found under its process id unless its child exits
      and its parent had the handler from before. */
  lemma {:induction false} PendingFound<B(!new)>(s: State<B>, es: seq<Event<B>>, task: Task)
    requires Inv(s) && CanRun(s, es) && task in s.calls
    requires forall i :: 0 <= i < |es| ==> !OfTask(es[i], task)
    ensures var c := s.calls[task]; var t := Run(s, es);
            && Inv(t) && task in t.calls && t.calls[task] == c
            && (c.pid in s.children ==>
                  (Finds(t.list, c.pid, c.bin) <==> !(task in s.handling && Exit(c.pid) in es)))
            && (c.pid !in s.children ==>
                  Exit(c.pid) !in es && (Finds(t.list, c.pid, c.bin) <==> c.bin in s.stale))
    decreases |es|
  {
    hide Inv, Step, Enabled, Finds, OfTask;
    if es == [] {
      FoundIff(s, task);
    } else {
      StepKeeps(s, es[0]);
      OthersStep(s, es[0], task);
      PendingFound(Step(s, es[0]), es[1..], task);
    }
  }

  /** The emergency removal of a call of schedule_unload, whatever others do between its adding to the list and
      the failure of its sigaction(), returns the structure just added, and takes nothing else off, exactly if it
      is not so that its child has exited since then with the handler connected by an earlier call.  In that
      case the structure has been freed although schedule_unload reports a failure. */
  lemma EmergencyExact<B(!new)>(s: State<B>, task: Task, pid: int, bin: B, es: seq<Event<B>>)
    requires Inv(s) && Enabled(s, Add(task, pid, bin)) && CanRun(Step(s, Add(task, pid, bin)), es)
    requires forall i :: 0 <= i < |es| ==> !OfTask(es[i], task)
    ensures var t := Run(Step(s, Add(task, pid, bin)), es);
            && (Taken(t.list, pid) == [Entry(pid, bin)] <==> !(task in s.handling && Exit(pid) in es))
            && (Holds(t.unloaded, bin) <==> task in s.handling && Exit(pid) in es)
  {
    hide Inv, Enabled, Find, OfTask;
    var now := Step(s, Add(task, pid, bin));
    StepKeeps(s, Add(task, pid, bin));
    PendingFound(now, es, task);
    var t := Run(now, es);
    assert Finds(t.list, pid, bin) <==> !(task in s.handling && Exit(pid) in es);
    FoundOrUnloaded(t, task);
  }

  lemma FoundOrUnloaded<B(!new)>(s: State<B>, task: Task)
    requires Inv(s) && task in s.calls
    ensures Finds(s.list, s.calls[task].pid, s.calls[task].bin) <==> !Holds(s.unloaded, s.calls[task].bin)
  {
    hide Find;
    var c := s.calls[task];
    FoundIff(s, task);
    assert CallStands(s, task, c);
    if Finds(s.list, c.pid, c.bin) {
      assert Holds(s.list, c.bin);
    }
  }

  // ----- runs that go wrong -----

  /** `s` is reached from the start by `es`, with `e` as the last event. */
  lemma {:induction false} OneMore<B(!new)>(s: State<B>, es: seq<Event<B>>, t: State<B>, e: Event<B>)
    requires CanRun(s, es) && Run(s, es) == t && Enabled(t, e)
    ensures CanRun(s, es + [e]) && Run(s, es + [e]) == Step(t, e)
    decreases |es|
  {
    hide Enabled, Step;
    if es == [] {
      assert es + [e] == [e] && [e][1..] == [];
    } else {
      assert (es + [e])[1..] == es[1..] + [e];
      OneMore(Step(s, es[0]), es[1..], t, e);
    }
  }

  /** A parent with the handler connected for an earlier child. */
  function Connected(): State<nat> {
    State([Entry(1, 10)], {0}, map[1 := Scheduled(0, 10)], map[], [], {})
  }

  lemma ReachConnected() returns (es: seq<Event<nat>>)
    ensures CanRun(Start<nat>(), es) && Run(Start<nat>(), es) == Connected()
  {
    hide Run, CanRun;
    var s0 := Start<nat>();
    Nothing(s0);
    var s1 := Step(s0, Spawn(1, 0));
    OneMore(s0, [], s0, Spawn(1, 0));
    assert !Holds(s1.list, 10) && !Holds(s1.unloaded, 10) && !Named(s1, 1);
    var s2 := Step(s1, Add(0, 1, 10));
    OneMore(s0, [] + [Spawn(1, 0)], s1, Add(0, 1, 10));
    es := [] + [Spawn(1, 0)] + [Add(0, 1, 10)];
    OneMore(s0, es, s2, Connect(0, true));
    es := es + [Connect(0, true)];
    assert Step(s2, Connect(0, true)) == Connected();
  }

  lemma Nothing<B(!new)>(s: State<B>)
    ensures CanRun(s, []) && Run(s, []) == s
  {}

  /** A run from the start in which a failing call of schedule_unload does not get its structure back, because it has
      been unloaded and freed meanwhile: the next child of that parent exits before sigaction() fails. */
  lemma FreedMeanwhile() returns (es: seq<Event<nat>>)
    ensures CanRun(Start<nat>(), es) && CanRun(Start<nat>(), es + [Withdraw(0)])
    ensures var t := Run(Start<nat>(), es);
            && t.calls == map[0 := Failed(2, 20)] && Taken(t.list, 2) == [] && t.unloaded == [Entry(2, 20)]
            && t.list == [Entry(1, 10)]
  {
    hide Run, CanRun;
    var s0 := Start<nat>();
    es := ReachConnected();
    var s := Connected();
    OneMore(s0, es, s, Spawn(2, 0));
    es, s := es + [Spawn(2, 0)], Step(s, Spawn(2, 0));
    assert !Holds(s.list, 20) && !Holds(s.unloaded, 20) && !Named(s, 2);
    OneMore(s0, es, s, Add(0, 2, 20));
    es, s := es + [Add(0, 2, 20)], Step(s, Add(0, 2, 20));
    assert s.list == [Entry(2, 20), Entry(1, 10)] && Find(s.list, 2) == 0;
    OneMore(s0, es, s, Exit(2));
    es, s := es + [Exit(2)], Step(s, Exit(2));
    assert s.list == [Entry(1, 10)] && s.unloaded == [Entry(2, 20)];
    OneMore(s0, es, s, Connect(0, false));
    es, s := es + [Connect(0, false)], Step(s, Connect(0, false));
    assert s.calls == map[0 := Failed(2, 20)];
    assert s.list[1..] == [];
    assert Find(s.list, 2) == 1;
    OneMore(s0, es, s, Withdraw(0));
  }

  /** A run from the start that leaves an entry behind for good: the child exits before its parent has the handler. */
  lemma LeftBehind() returns (es: seq<Event<nat>>)
    ensures CanRun(Start<nat>(), es)
    ensures var t := Run(Start<nat>(), es);
            t.list == [Entry(1, 10)] && t.children == map[] && t.calls == map[] && t.stale == {10} && 0 in t.handling
  {
    hide Run, CanRun;
    var s0 := Start<nat>();
    Nothing(s0);
    var s := s0;
    es := [];
    OneMore(s0, es, s, Spawn(1, 0));
    es, s := es + [Spawn(1, 0)], Step(s, Spawn(1, 0));
    assert !Holds(s.list, 10) && !Holds(s.unloaded, 10) && !Named(s, 1);
    OneMore(s0, es, s, Add(0, 1, 10));
    es, s := es + [Add(0, 1, 10)], Step(s, Add(0, 1, 10));
    OneMore(s0, es, s, Exit(1));
    es, s := es + [Exit(1)], Step(s, Exit(1));
    OneMore(s0, es, s, Connect(0, true));
    es, s := es + [Connect(0, true)], Step(s, Connect(0, true));
  }

  // ----- the list, linked through the structures -----

  class Binary {
    var pid: int
    var flink: Binary?

    constructor ()
    {
      pid, flink := 0, null;
    }
  }

  ghost function EntriesOf(nodes: seq<Binary>): (r: seq<Entry<Binary>>)
    reads nodes
    ensures |r| == |nodes|
    ensures forall i :: 0 <= i < |nodes| ==> r[i] == Entry(nodes[i].pid, nodes[i])
  {
    if nodes == [] then [] else [Entry(nodes[0].pid, nodes[0])] + EntriesOf(nodes[1..])
  }

  ghost function NodeAt(nodes: seq<Binary>, i: nat): Binary? {
    if i < |nodes| then nodes[i] else null
  }

  /** The structures that are handed to schedule_unload. */
  ghost function BinsOf(es: seq<Event<Binary>>): set<Binary> {
    set e | e in es && e.Add? :: e.bin
  }

  lemma RemovedIs<B>(list: seq<Entry<B>>, pid: int)
    ensures var i := Find(list, pid); Removed(list, pid) == if i < |list| then list[..i] + list[i + 1..] else list
  {
  }

  lemma Here(nodes: seq<Binary>, i: nat)
    ensures NodeAt(nodes, i) == null <==> i >= |nodes|
    ensures i < |nodes| ==> NodeAt(nodes, i) == nodes[i]
  {
  }

  lemma Subset(nodes: seq<Binary>, i: nat)
    requires i < |nodes|
    ensures forall n :: n in nodes[..i] + nodes[i + 1..] ==> n in nodes
  {
  }

  class UnloadList {
    var head: Binary?
    ghost var nodes: seq<Binary>

    /** The links run through `nodes`, each of which is there once: there is no cycle. */
    ghost predicate Valid()
      reads this, nodes
    {
      && (forall i, j :: 0 <= i < j < |nodes| ==> nodes[i] != nodes[j])
      && head == NodeAt(nodes, 0)
      && (forall i :: 0 <= i < |nodes| ==> nodes[i].flink == NodeAt(nodes, i + 1))
    }

    ghost function Contents(): (r: seq<Entry<Binary>>)
      reads this, nodes
      ensures |r| == |nodes| && forall i :: 0 <= i < |nodes| ==> r[i] == Entry(nodes[i].pid, nodes[i])
    {
      EntriesOf(nodes)
    }

    constructor ()
      ensures Valid() && Contents() == []
    {
      head, nodes := null, [];
    }

    /** unload_list_add. */
    method ListAdd(pid: int, bin: Binary)
      requires Valid() && bin !in nodes
      modifies this, bin
      ensures Valid() && nodes == [bin] + old(nodes)
      ensures Contents() == [Entry(pid, bin)] + old(Contents())
    {
      bin.pid := pid;
      bin.flink := head;
      head := bin;
      nodes := [bin] + nodes;
      assert nodes[1..] == old(nodes);
    }

    /** The search of unload_list_remove. */
    method Search(pid: int) returns (prev: Binary?, curr: Binary?, ghost i: nat)
      requires Valid()
      ensures i == Find(Contents(), pid) && curr == NodeAt(nodes, i)
      ensures prev == if i == 0 then null else NodeAt(nodes, i - 1)
    {
      hide Find;
      ghost var list := Contents();
      prev, curr, i := null, head, 0;
      while curr != null && curr.pid != pid
        invariant i <= |nodes| && curr == NodeAt(nodes, i) && prev == (if i == 0 then null else NodeAt(nodes, i - 1))
        invariant forall j :: 0 <= j < i ==> list[j].pid != pid
        decreases |nodes| - i
      {
        assert list[i].pid == nodes[i].pid;
        prev, curr := curr, curr.flink;
        i := i + 1;
      }
      FindUnique(list, pid, i);
    }

    /** Its relinking. */
    method Unlink(prev: Binary?, curr: Binary, ghost i: nat)
      requires Valid() && i < |nodes| && curr == nodes[i]
      requires prev == if i == 0 then null else NodeAt(nodes, i - 1)
      modifies this, nodes
      ensures Valid() && nodes == old(nodes)[..i] + old(nodes)[i + 1..] && curr.flink == null && curr !in nodes
      ensures forall n :: n in old(nodes) ==> n.pid == old(n.pid)
    {
      ghost var all := nodes;
      if prev != null {
        prev.flink := curr.flink;
      } else {
        head := curr.flink;
      }
      curr.flink := null;
      nodes := nodes[..i] + nodes[i + 1..];
      forall j | 0 <= j < |nodes|
        ensures nodes[j].flink == NodeAt(nodes, j + 1)
      {
        if j + 1 < i {
          assert nodes[j] == all[j] && nodes[j + 1] == all[j + 1];
        } else if j + 1 == i {
          assert nodes[j] == prev;
        } else {
          assert nodes[j] == all[j + 1];
        }
      }
    }

    /** unload_list_remove. */
    method ListRemove(pid: int) returns (curr: Binary?)
      requires Valid()
      modifies this, nodes
      ensures Valid() && Contents() == Removed(old(Contents()), pid)
      ensures curr == NodeAt(old(nodes), Find(old(Contents()), pid))
      ensures curr != null ==> curr.flink == null && curr !in nodes
      ensures forall n :: n in nodes ==> n in old(nodes)
    {
      hide *;
      ghost var list := Contents();
      var prev: Binary?;
      ghost var i;
      prev, curr, i := Search(pid);
      Here(nodes, i);
      RemovedIs(list, pid);
      if curr != null {
        Unlink(prev, curr, i);
        assert Contents() == list[..i] + list[i + 1..];
        Subset(old(nodes), i);
      }
    }

    /** unload_callback, for a signal that is SIGCHLD with the information that comes with it: the structure that
        is to be unloaded and freed, if there is one. */
    method Callback(pid: int) returns (bin: Binary?)
      requires Valid()
      modifies this, nodes
      ensures Valid() && Contents() == Removed(old(Contents()), pid)
      ensures bin == NodeAt(old(nodes), Find(old(Contents()), pid)) && (bin != null ==> bin !in nodes)
      ensures forall n :: n in nodes ==> n in old(nodes)
    {
      bin := ListRemove(pid);
    }

    /** schedule_unload without anything in between; `unmasked` and `connected` say whether sigprocmask() and
        sigaction() succeed. */
    method Schedule(pid: int, bin: Binary, unmasked: bool, connected: bool) returns (ok: bool)
      requires Valid() && bin !in nodes
      modifies this, nodes, bin
      ensures Valid() && ok == (unmasked && connected)
      ensures ok ==> Contents() == [Entry(pid, bin)] + old(Contents())
      ensures !ok ==> Contents() == old(Contents())
    {
      if !unmasked {
        return false;
      }
      ListAdd(pid, bin);
      if !connected {
        FindAfterAdd(old(Contents()), Entry(pid, bin), pid);
        var removed := ListRemove(pid);
        assert removed == bin;
        assert Contents() == old(Contents());
        return false;
      }
      return true;
    }

    /** All calls of schedule_unload and all exits of children, in any order that can be: the list in memory has no
        cycle and holds what the protocol says, and `freed` are the structures that were unloaded and freed. */
    method RunAll(es: seq<Event<Binary>>) returns (freed: seq<Entry<Binary>>)
      requires Valid() && nodes == [] && CanRun(Start<Binary>(), es)
      modifies this, BinsOf(es)
      ensures Valid() && Contents() == Run(Start<Binary>(), es).list
      ensures freed == Run(Start<Binary>(), es).unloaded
    {
      hide Find, Enabled, Removed, EntriesOf;
      var s := Start<Binary>();
      freed := [];
      var k := 0;
      assert es[0..] == es;
      while k < |es|
        invariant 0 <= k <= |es| && Valid() && (forall n :: n in nodes ==> n in BinsOf(es))
        invariant CanRun(s, es[k..]) && Run(s, es[k..]) == Run(Start<Binary>(), es)
        invariant Contents() == s.list && freed == s.unloaded
      {
        assert es[k..][0] == es[k] && es[k..][1..] == es[k + 1..];
        freed := Take(s, es[k], freed);
        s := Step(s, es[k]);
        k := k + 1;
      }
      assert es[k..] == [];
    }

    /** One event. */
    method Take(s: State<Binary>, e: Event<Binary>, freed: seq<Entry<Binary>>) returns (freed': seq<Entry<Binary>>)
      requires Valid() && Enabled(s, e) && Contents() == s.list && freed == s.unloaded
      modifies this, nodes, if e.Add? then {e.bin} else {}
      ensures Valid() && Contents() == Step(s, e).list && freed' == Step(s, e).unloaded
      ensures forall n :: n in nodes ==> n in old(nodes) || (e.Add? && n == e.bin)
    {
      hide Find, Removed, EntriesOf;
      freed' := freed;
      match e {
        case Add(_, pid, bin) =>
          if bin in nodes {
            Among(bin);
          }
          ListAdd(pid, bin);
        case Withdraw(task) =>
          var bin := ListRemove(s.calls[task].pid);
        case Exit(pid) =>
          if s.children[pid].parent in s.handling {
            var bin := Callback(pid);
            Here(old(nodes), Find(s.list, pid));
            if bin != null {
              freed' := freed + [Entry(pid, bin)];
            }
          }
        case _ =>
      }
    }

    lemma Among(bin: Binary)
      requires bin in nodes
      ensures Holds(Contents(), bin)
    {
      var i :| 0 <= i < |nodes| && nodes[i] == bin;
      assert Contents()[i].bin == bin;
    }
  }
}
