/** The handlers of binary formats and the loading of modules: the handlers are tried from the one registered last
    on, and a relative name is looked for in the directories of the PATH variable. */
module Binfmt {
  import opened Common
  import opened ExePath

  const ENOENT: int := 2
  const EINVAL: int := 22
  const OK: int := 0

  /** A handler; `load` is what its method returns for a file. */
  class Handler {
    const load: string -> int
    var next: Handler?

    constructor (load: string -> int)
      ensures this.load == load && next == null
    {
      this.load, this.next := load, null;
    }
  }

  // ----- registering -----

  datatype Op<H> = Register(handler: H) | Unregister(handler: H)

  function Without<H(==)>(list: seq<H>, h: H): seq<H> {
    if list == [] then [] else if list[0] == h then list[1..] else [list[0]] + Without(list[1..], h)
  }

  function Apply<H(==)>(list: seq<H>, op: Op<H>): seq<H> {
    match op
    case Register(h) => [h] + list
    case Unregister(h) => Without(list, h)
  }

  /** The list after the calls in `ops`. */
  function After<H(==)>(ops: seq<Op<H>>): seq<H> {
    if ops == [] then [] else Apply(After(ops[..|ops| - 1]), ops[|ops| - 1])
  }

  /** No handler is registered while it is registered already. */
  predicate CanRun<H(==)>(ops: seq<Op<H>>) {
    ops == [] ||
    var before := ops[..|ops| - 1];
    CanRun(before) && (ops[|ops| - 1].Register? ==> ops[|ops| - 1].handler !in After(before))
  }

  /** The registrations that no later unregistration takes back, the latest first; `gone` are the handlers that
      are taken back after `ops`. */
  function InForce<H(==)>(ops: seq<Op<H>>, gone: set<H>): seq<H> {
    if ops == [] then []
    else
      var before := ops[..|ops| - 1];
      match ops[|ops| - 1]
      case Register(h) => (if h in gone then [] else [h]) + InForce(before, gone)
      case Unregister(h) => InForce(before, gone + {h})
  }

  function Keep<H(==)>(list: seq<H>, gone: set<H>): seq<H> {
    if list == [] then [] else (if list[0] in gone then [] else [list[0]]) + Keep(list[1..], gone)
  }

  ghost predicate Distinct<H>(list: seq<H>) {
    forall i, j :: 0 <= i < j < |list| ==> list[i] != list[j]
  }

  lemma {:induction false} WithoutIsDistinct<H>(list: seq<H>, h: H)
    requires Distinct(list)
    ensures Distinct(Without(list, h))
    ensures forall x :: x in Without(list, h) <==> x in list && x != h
    decreases |list|
  {
    if list != [] {
      assert list == [list[0]] + list[1..];
      assert list[0] !in list[1..];
      if list[0] != h {
        WithoutIsDistinct(list[1..], h);
      }
    }
  }

  lemma {:induction false} KeepWithout<H>(list: seq<H>, h: H, gone: set<H>)
    requires Distinct(list)
    ensures Keep(Without(list, h), gone) == Keep(list, gone + {h})
    decreases |list|
  {
    if list != [] {
      if list[0] == h {
        KeepOthers(list[1..], h, gone);
      } else {
        KeepWithout(list[1..], h, gone);
        assert Without(list, h)[1..] == Without(list[1..], h);
      }
    }
  }

  lemma {:induction false} KeepOthers<H>(list: seq<H>, h: H, gone: set<H>)
    requires h !in list
    ensures Keep(list, gone) == Keep(list, gone + {h})
    decreases |list|
  {
    if list != [] {
      KeepOthers(list[1..], h, gone);
    }
  }

  lemma {:induction false} KeepAll<H>(list: seq<H>)
    ensures Keep(list, {}) == list
    decreases |list|
  {
    if list != [] {
      KeepAll(list[1..]);
    }
  }

  lemma {:induction false} AfterIsDistinct<H>(ops: seq<Op<H>>)
    requires CanRun(ops)
    ensures Distinct(After(ops))
    decreases |ops|
  {
    if ops != [] {
      var before := ops[..|ops| - 1];
      AfterIsDistinct(before);
      if ops[|ops| - 1].Unregister? {
        WithoutIsDistinct(After(before), ops[|ops| - 1].handler);
      }
    }
  }

  lemma {:induction false} AfterKept<H>(ops: seq<Op<H>>, gone: set<H>)
    requires CanRun(ops)
    ensures Keep(After(ops), gone) == InForce(ops, gone)
    decreases |ops|
  {
    if ops != [] {
      var before := ops[..|ops| - 1];
      match ops[|ops| - 1] {
        case Register(h) =>
          AfterKept(before, gone);
          assert ([h] + After(before))[1..] == After(before);
        case Unregister(h) =>
          AfterIsDistinct(before);
          KeepWithout(After(before), h, gone);
          AfterKept(before, gone + {h});
      }
    }
  }

  lemma {:induction false} CanRunTo<H>(ops: seq<Op<H>>, k: nat)
    requires CanRun(ops) && k <= |ops|
    ensures CanRun(ops[..k])
    decreases |ops|
  {
    if k < |ops| {
      CanRunTo(ops[..|ops| - 1], k);
      assert ops[..|ops| - 1][..k] == ops[..k];
    } else {
      assert ops[..k] == ops;
    }
  }

  lemma {:induction false} AppliedFrom<H>(list: seq<H>, op: Op<H>)
    ensures forall h :: h in Apply(list, op) ==> h in list || h == op.handler
    decreases |list|
  {
    if op.Unregister? && list != [] && list[0] != op.handler {
      AppliedFrom(list[1..], op);
      assert Apply(list, op) == [list[0]] + Apply(list[1..], op);
    }
  }

  /** After any run the list is that of the registrations in force, the latest first. */
  lemma ListIsInForce<H>(ops: seq<Op<H>>)
    requires CanRun(ops)
    ensures After(ops) == InForce(ops, {})
  {
    KeepAll(After(ops));
    AfterKept(ops, {});
  }

  // ----- loading -----

  /** load_absmodule: what it returns, and the handler that loaded the file. */
  function LoadAbs(handlers: seq<Handler>, file: string): (int, Option<Handler>) {
    LoadFrom(handlers, file, -ENOENT)
  }

  function LoadFrom(handlers: seq<Handler>, file: string, ret: int): (int, Option<Handler>) {
    if handlers == [] then (ret, None)
    else if handlers[0].load(file) == OK then (OK, Some(handlers[0]))
    else LoadFrom(handlers[1..], file, handlers[0].load(file))
  }

  /** The handler is the first of the list that accepts the file; without one, the last one's code is returned. */
  lemma {:induction false} FirstThatLoads(handlers: seq<Handler>, file: string, ret: int)
    requires ret != OK
    ensures var (code, winner) := LoadFrom(handlers, file, ret);
            && (winner.None? <==> forall h :: h in handlers ==> h.load(file) != OK)
            && (code == OK <==> winner.Some?)
            && (winner.None? ==> code == if handlers == [] then ret else handlers[|handlers| - 1].load(file))
            && (winner.Some? ==>
                  exists i :: (&& 0 <= i < |handlers| && handlers[i] == winner.value && handlers[i].load(file) == OK
                               && forall j :: 0 <= j < i ==> handlers[j].load(file) != OK))
    decreases |handlers|
  {
    if handlers != [] {
      if handlers[0].load(file) != OK {
        FirstThatLoads(handlers[1..], file, handlers[0].load(file));
        var (code, winner) := LoadFrom(handlers, file, ret);
        if winner.Some? {
          var i :| 0 <= i < |handlers[1..]| && handlers[1..][i] == winner.value
                   && forall j :: 0 <= j < i ==> handlers[1..][j].load(file) != OK;
          forall j | 0 <= j < i + 1 ensures handlers[j].load(file) != OK {
            assert j > 0 ==> handlers[j] == handlers[1..][j - 1];
          }
          assert handlers[i + 1] == winner.value;
        } else {
          assert handlers == [handlers[0]] + handlers[1..];
        }
      } else {
        assert handlers[0] in handlers;
      }
    }
  }

  /** A registration that is not taken back, in `ops` or by `gone` after it. */
  ghost predicate Stands<H>(ops: seq<Op<H>>, gone: set<H>, i: int) {
    && 0 <= i < |ops| && ops[i].Register? && ops[i].handler !in gone
    && forall j :: i < j < |ops| ==> ops[j] != Unregister(ops[i].handler)
  }

  /** `i` is the latest registration that stands of a handler that accepts the file. */
  ghost predicate Latest(ops: seq<Op<Handler>>, gone: set<Handler>, file: string, i: int) {
    && Stands(ops, gone, i) && ops[i].handler.load(file) == OK
    && forall j :: i < j && Stands(ops, gone, j) ==> ops[j].handler.load(file) != OK
  }

  /** The handler of the latest registration that stands and accepts the file; none if none does. */
  ghost predicate IsLatest(ops: seq<Op<Handler>>, gone: set<Handler>, file: string, winner: Option<Handler>) {
    if winner.Some? then exists i :: Latest(ops, gone, file, i) && ops[i].handler == winner.value
    else forall i :: Stands(ops, gone, i) ==> ops[i].handler.load(file) != OK
  }

  /** Where a registration stands without the last call it stands with it, unless that takes it back. */
  lemma StandsBefore<H>(ops: seq<Op<H>>, gone: set<H>, i: int)
    requires 0 <= i < |ops| - 1
    ensures var last := ops[|ops| - 1];
            Stands(ops, gone, i)
            <==> Stands(ops[..|ops| - 1], if last.Unregister? then gone + {last.handler} else gone, i)
  {
    var before := ops[..|ops| - 1];
    assert before[i] == ops[i];
    forall j | i < j < |before| ensures before[j] == ops[j] {
    }
    if Stands(ops, gone, i) {
      forall j | i < j < |before| ensures before[j] != Unregister(before[i].handler) {
        assert before[j] == ops[j];
      }
    }
  }

  /** What the last call leaves as it is: it registers no handler that accepts the file. */
  lemma LatestBefore(ops: seq<Op<Handler>>, gone: set<Handler>, file: string, winner: Option<Handler>)
    requires ops != []
    requires Stands(ops, gone, |ops| - 1) ==> ops[|ops| - 1].handler.load(file) != OK
    requires var last := ops[|ops| - 1];
             IsLatest(ops[..|ops| - 1], if last.Unregister? then gone + {last.handler} else gone, file, winner)
    ensures IsLatest(ops, gone, file, winner)
  {
    var before := ops[..|ops| - 1];
    var last := ops[|ops| - 1];
    var later := if last.Unregister? then gone + {last.handler} else gone;
    forall i | 0 <= i < |ops| - 1
      ensures before[i] == ops[i] && (Stands(ops, gone, i) <==> Stands(before, later, i))
    {
      StandsBefore(ops, gone, i);
    }
    if winner.Some? {
      var i :| Latest(before, later, file, i) && before[i].handler == winner.value;
      assert Latest(ops, gone, file, i);
    }
  }

  lemma {:induction false} LatestLoads(ops: seq<Op<Handler>>, gone: set<Handler>, file: string, ret: int)
    requires ret != OK
    ensures IsLatest(ops, gone, file, LoadFrom(InForce(ops, gone), file, ret).1)
    decreases |ops|
  {
    if ops != [] {
      var before := ops[..|ops| - 1];
      var last := ops[|ops| - 1];
      var list := InForce(ops, gone);
      var winner := LoadFrom(list, file, ret).1;
      if last.Register? && last.handler !in gone {
        assert list[1..] == InForce(before, gone);
        if last.handler.load(file) == OK {
          assert Latest(ops, gone, file, |ops| - 1);
        } else {
          LatestLoads(before, gone, file, last.handler.load(file));
          LatestBefore(ops, gone, file, winner);
        }
      } else {
        var later := if last.Unregister? then gone + {last.handler} else gone;
        assert list == InForce(before, later);
        LatestLoads(before, later, file, ret);
        LatestBefore(ops, gone, file, winner);
      }
    }
  }

  /** After any run of registering and unregistering, a file is loaded by the handler whose registration is the
      latest among those in force of handlers that accept it, and by none if none of those accepts it. */
  lemma LatestIsChosen(ops: seq<Op<Handler>>, file: string)
    requires CanRun(ops)
    ensures IsLatest(ops, {}, file, LoadAbs(After(ops), file).1)
  {
    ListIsInForce(ops);
    LatestLoads(ops, {}, file, -ENOENT);
  }

  // ----- a relative name -----

  /** What loading one of `files` comes to: the code, the files that are tried, and the handler that loads. */
  datatype Outcome = Outcome(code: int, tried: seq<string>, handler: Option<Handler>)

  function TryFiles(handlers: seq<Handler>, files: seq<string>, ret: int): Outcome {
    if files == [] then Outcome(ret, [], None)
    else
      var (code, winner) := LoadAbs(handlers, files[0]);
      if code == OK then Outcome(OK, [files[0]], winner)
      else
        var rest := TryFiles(handlers, files[1..], code);
        rest.(tried := [files[0]] + rest.tried)
  }

  /** The files are tried in order up to the first that some handler loads, which the first such handler does. */
  lemma {:induction false} TriedUpToFirst(handlers: seq<Handler>, files: seq<string>, ret: int)
    requires ret != OK
    ensures var r := TryFiles(handlers, files, ret);
            var n := |r.tried|;
            && r.tried <= files
            && (r.code == OK <==> r.handler.Some?)
            && (r.handler.Some? ==> n > 0 && r.handler == LoadAbs(handlers, files[n - 1]).1)
            && (r.handler.None? ==>
                  r.tried == files && r.code == if n == 0 then ret else LoadAbs(handlers, files[n - 1]).0)
            && forall i :: 0 <= i < (if r.handler.Some? then n - 1 else n) ==> LoadAbs(handlers, files[i]).0 != OK
    decreases |files|
  {
    hide LoadAbs;
    if files != [] {
      var code := LoadAbs(handlers, files[0]).0;
      LoadsIffFound(handlers, files[0]);
      if code != OK {
        hide TryFiles;
        TryNext(handlers, files, ret);
        TriedUpToFirst(handlers, files[1..], code);
        assert files == [files[0]] + files[1..];
        assert forall i :: 0 < i < |files| ==> files[i] == files[1..][i - 1];
      }
    }
  }

  lemma TryNext(handlers: seq<Handler>, files: seq<string>, ret: int)
    requires files != [] && LoadAbs(handlers, files[0]).0 != OK
    ensures var rest := TryFiles(handlers, files[1..], LoadAbs(handlers, files[0]).0);
            TryFiles(handlers, files, ret) == rest.(tried := [files[0]] + rest.tried)
  {
    hide LoadAbs;
  }

  lemma LoadsIffFound(handlers: seq<Handler>, file: string)
    ensures LoadAbs(handlers, file).0 == OK <==> LoadAbs(handlers, file).1.Some?
  {
    FirstThatLoads(handlers, file, -ENOENT);
  }

  predicate Absolute(name: string) {
    |name| > 0 && name[0] == '/'
  }

  /** The files that load_module is to try for a name. */
  function FilesFor(name: string, path: Option<string>, isFile: string -> bool): seq<string> {
    if Absolute(name) then [name]
    else if path.None? then []
    else Candidates(Components(path.value), name, isFile)
  }

  /** A name with a slash in front is the only file; otherwise the files are those in the directories of the PATH
      variable, all of them and in order. */
  lemma SearchedFiles(name: string, dirs: seq<string>, isFile: string -> bool) returns (at: seq<nat>)
    requires |dirs| > 0 && ColonFree(dirs) && dirs[|dirs| - 1] != []
    ensures "/" <= name ==> FilesFor(name, None, isFile) == FilesFor(name, Some(Join(dirs)), isFile) == [name]
    ensures !("/" <= name) ==> FilesFor(name, None, isFile) == []
    ensures !("/" <= name) ==>
              Selected(Names(dirs, name), isFile, FilesFor(name, Some(Join(dirs)), isFile), at)
  {
    hide Candidates, Components;
    JoinedComponents(dirs);
    at := CandidatesAre(dirs, name, isFile);
  }

  // ----- the list, linked through the handlers -----

  ghost function NodeAt(nodes: seq<Handler>, i: nat): Handler? {
    if i < |nodes| then nodes[i] else null
  }

  lemma {:induction false} WithoutAt(nodes: seq<Handler>, h: Handler, i: nat)
    requires i <= |nodes| && (i < |nodes| ==> nodes[i] == h) && h !in nodes[..i]
    ensures Without(nodes, h) == if i < |nodes| then nodes[..i] + nodes[i + 1..] else nodes
    decreases |nodes|
  {
    if |nodes| > 0 {
      if i == 0 {
        assert nodes[..0] + nodes[1..] == nodes[1..];
      } else {
        assert nodes[0] == nodes[..i][0];
        assert forall j :: 0 <= j < i - 1 ==> nodes[1..][j] == nodes[..i][j + 1];
        WithoutAt(nodes[1..], h, i - 1);
        if i < |nodes| {
          assert [nodes[0]] + (nodes[1..][..i - 1] + nodes[1..][i..]) == nodes[..i] + nodes[i + 1..];
        }
      }
    }
  }

  /** A module; `unload` stands for the method of the handler that loaded it. */
  class Module {
    var filename: string
    var priority: int
    var unload: Option<Handler>

    constructor (filename: string)
      ensures this.filename == filename
    {
      this.filename, this.priority, this.unload := filename, 0, None;
    }
  }

  ghost function HandlersOf(ops: seq<Op<Handler>>): set<Handler> {
    set op | op in ops :: op.handler
  }

  class Formats {
    var head: Handler?
    ghost var nodes: seq<Handler>

    ghost predicate Valid()
      reads this, nodes
    {
      && Distinct(nodes) && head == NodeAt(nodes, 0)
      && (forall i :: 0 <= i < |nodes| ==> nodes[i].next == NodeAt(nodes, i + 1))
    }

    constructor ()
      ensures Valid() && nodes == []
    {
      head, nodes := null, [];
    }

    /** register_binfmt. */
    method RegisterBinfmt(h: Handler?) returns (ret: int)
      requires Valid() && (h != null ==> h !in nodes)
      modifies this, h
      ensures Valid()
      ensures ret == (if h == null then -EINVAL else OK)
      ensures nodes == if h == null then old(nodes) else Apply<Handler>(old(nodes), Register(h))
    {
      if h == null {
        return -EINVAL;
      }
      h.next := head;
      head := h;
      nodes := [h] + nodes;
      return OK;
    }

    /** The search of unregister_binfmt. */
    method Search(h: Handler) returns (prev: Handler?, curr: Handler?, ghost i: nat)
      requires Valid()
      ensures i <= |nodes| && (i < |nodes| ==> nodes[i] == h) && h !in nodes[..i]
      ensures curr == NodeAt(nodes, i) && prev == if i == 0 then null else NodeAt(nodes, i - 1)
    {
      prev, curr, i := null, head, 0;
      while curr != null && curr != h
        invariant i <= |nodes| && curr == NodeAt(nodes, i) && prev == (if i == 0 then null else NodeAt(nodes, i - 1))
        invariant h !in nodes[..i]
        decreases |nodes| - i
      {
        assert nodes[..i + 1] == nodes[..i] + [curr];
        prev, curr := curr, curr.next;
        i := i + 1;
      }
    }

    /** Its relinking. */
    method Unlink(prev: Handler?, h: Handler, ghost i: nat)
      requires Valid() && i < |nodes| && h == nodes[i]
      requires prev == if i == 0 then null else NodeAt(nodes, i - 1)
      modifies this, nodes
      ensures Valid() && nodes == old(nodes)[..i] + old(nodes)[i + 1..] && h.next == null
    {
      ghost var all := nodes;
      if prev == null {
        head := h.next;
      } else {
        prev.next := h.next;
      }
      h.next := null;
      nodes := nodes[..i] + nodes[i + 1..];
      forall j | 0 <= j < |nodes|
        ensures nodes[j].next == NodeAt(nodes, j + 1)
      {
        if j + 1 < i {
          assert nodes[j] == all[j] && nodes[j + 1] == all[j + 1];
        } else if j + 1 == i {
          assert nodes[j] == prev;
        } else {
          assert nodes[j] == all[j + 1];
        }
      }
    }

    /** unregister_binfmt. */
    method UnregisterBinfmt(h: Handler?) returns (ret: int)
      requires Valid()
      modifies this, nodes
      ensures Valid()
      ensures ret == if h != null && h in old(nodes) then OK else -EINVAL
      ensures nodes == if h == null then old(nodes) else Apply<Handler>(old(nodes), Unregister(h))
    {
      hide Valid;
      ret := -EINVAL;
      if h != null {
        ghost var all := nodes;
        var prev, curr, i := Search(h);
        WithoutAt(all, h, i);
        if curr != null {
          Unlink(prev, h, i);
          assert nodes == Without<Handler>(all, h);
          ret := OK;
        } else {
          assert all[..i] == all;
          assert nodes == Without<Handler>(all, h);
        }
      }
    }

    /** Any registrations and unregistrations: the list in memory has no cycle and holds what is in force. */
    method RunAll(ops: seq<Op<Handler>>)
      requires Valid() && nodes == [] && CanRun(ops)
      modifies this, HandlersOf(ops)
      ensures Valid() && nodes == After(ops) == InForce(ops, {})
    {
      hide Valid, Apply;
      var k := 0;
      while k < |ops|
        invariant 0 <= k <= |ops| && Valid() && CanRun(ops[..k]) && nodes == After(ops[..k])
        invariant forall n :: n in nodes ==> n in HandlersOf(ops)
      {
        CanRunTo(ops, k + 1);
        assert ops[..k + 1][..k] == ops[..k] && ops[..k + 1][k] == ops[k];
        ghost var before := nodes;
        match ops[k] {
          case Register(h) =>
            var ret := RegisterBinfmt(h);
          case Unregister(h) =>
            var ret := UnregisterBinfmt(h);
        }
        AppliedFrom(before, ops[k]);
        k := k + 1;
      }
      assert ops[..k] == ops;
      ListIsInForce<Handler>(ops);
    }

    /** load_absmodule. */
    method LoadAbsModule(bin: Module) returns (ret: int)
      requires Valid()
      modifies bin`unload
      ensures ret == LoadAbs(nodes, bin.filename).0
      ensures bin.unload == if ret == OK then LoadAbs(nodes, bin.filename).1 else old(bin.unload)
    {
      ret := -ENOENT;
      var binfmt := head;
      ghost var i := 0;
      while binfmt != null
        invariant Valid() && i <= |nodes| && binfmt == NodeAt(nodes, i) && ret != OK
        invariant LoadFrom(nodes[i..], bin.filename, ret) == LoadAbs(nodes, bin.filename)
        invariant bin.unload == old(bin.unload)
        decreases |nodes| - i
      {
        assert nodes[i..][0] == binfmt && nodes[i..][1..] == nodes[i + 1..];
        ret := binfmt.load(bin.filename);
        if ret == OK {
          bin.unload := Some(binfmt);
          break;
        }
        binfmt := binfmt.next;
        i := i + 1;
      }
      LoadsIffFound(nodes, bin.filename);
    }

    /** load_module.  `path` is the PATH variable, `priority` what sched_getparam() gives, and `tried` the files
        that it tries to load. */
    method LoadModule(bin: Module, path: Option<string>, isFile: string -> bool, priority: Option<int>)
      returns (ok: bool, errno: int, ghost tried: seq<string>)
      requires Valid() && (path.Some? ==> '\0' !in path.value)
      modifies bin
      ensures bin.filename == old(bin.filename)
      ensures priority.None? ==> !ok && tried == [] && bin.unload == old(bin.unload)
      ensures priority.Some? ==>
                var r := TryFiles(nodes, FilesFor(bin.filename, path, isFile), -ENOENT);
                && bin.priority == priority.value && tried == r.tried
                && ok == (r.code >= 0) && (!ok ==> errno == -r.code)
                && bin.unload == if r.handler.Some? then r.handler else old(bin.unload)
      ensures priority.Some? && path.None? && !("/" <= bin.filename) ==> !ok && errno == 2 && tried == []
    {
      hide TryFiles, LoadAbs, Candidates, Components;
      tried, errno := [], 0;
      if priority.None? {
        return false, errno, tried;
      }
      bin.priority := priority.value;
      var ret := -ENOENT;
      if !Absolute(bin.filename) {
        var name := bin.filename;
        ghost var files := FilesFor(name, path, isFile);
        if path.Some? {
          var cursor := new Cursor(path.value);
          ret, tried := TryPath(bin, cursor, name, isFile);
        } else {
          NoFiles(nodes);
        }
        bin.filename := name;
      } else {
        ret := LoadAbsModule(bin);
        tried := [bin.filename];
        OneFile(nodes, bin.filename);
        LoadsIffFound(nodes, bin.filename);
      }
      if ret < 0 {
        return false, -ret, tried;
      }
      return true, errno, tried;
    }

    /** The loop of load_module over the files that exist. */
    method TryPath(bin: Module, cursor: Cursor, name: string, isFile: string -> bool)
      returns (ret: int, ghost tried: seq<string>)
      requires Valid() && cursor.Valid()
      modifies bin`filename, bin`unload, cursor, cursor.path
      ensures var r := TryFiles(nodes, Candidates(Components(old(cursor.Rest())), name, isFile), -ENOENT);
              && ret == r.code && tried == r.tried
              && bin.unload == if r.handler.Some? then r.handler else old(bin.unload)
    {
      hide LoadAbs, Candidates, Components, FirstFile;
      ret, tried := -ENOENT, [];
      ghost var all := Candidates(Components(cursor.Rest()), name, isFile);
      ghost var whole := TryFiles(nodes, all, ret);
      ghost var files := all;
      var more := true;
      while more
        invariant Valid() && cursor.Valid() && ret != OK
        invariant files == Candidates(Components(cursor.Rest()), name, isFile)
        invariant bin.unload == old(bin.unload)
        invariant var r := TryFiles(nodes, files, ret);
                  whole == r.(tried := tried + r.tried)
        invariant !more ==> files == []
        decreases |cursor.Rest()|, more
      {
        NextCandidate(Components(cursor.Rest()), name, isFile);
        var file := cursor.Next(name, isFile);
        if file.None? {
          Nowhere();
          NoCandidates(Components(cursor.Rest()), name, isFile);
          more := false;
        } else {
          bin.filename := file.value;
          ret := LoadAbsModule(bin);
          LoadsIffFound(nodes, file.value);
          tried := tried + [file.value];
          if ret == OK {
            return;
          }
          files := files[1..];
        }
      }
    }
  }

  lemma OneFile(handlers: seq<Handler>, file: string)
    ensures var (code, winner) := LoadAbs(handlers, file);
            TryFiles(handlers, [file], -ENOENT) == Outcome(code, [file], winner)
  {
    LoadsIffFound(handlers, file);
    var (code, winner) := LoadAbs(handlers, file);
    if code != OK {
      assert TryFiles(handlers, [], code) == Outcome(code, [], None);
    }
  }

  lemma NoCandidates(dirs: seq<string>, name: string, isFile: string -> bool)
    ensures dirs == [] ==> Candidates(dirs, name, isFile) == []
  {
  }

  lemma NoFiles(handlers: seq<Handler>)
    ensures TryFiles(handlers, [], -ENOENT) == Outcome(-ENOENT, [], None)
  {
  }
}
