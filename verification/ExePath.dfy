/** The traversal of the PATH variable: a cursor over a copy of it, in which the separators that were passed are
    overwritten. */
module ExePath {
  import opened Common

  /** The place of the first separator, or the end. */
  function Colon(s: string): (i: nat)
    ensures i <= |s| && (forall k :: 0 <= k < i ==> s[k] != ':') && (i < |s| ==> s[i] == ':')
  {
    if s == [] then 0 else if s[0] == ':' then 0 else 1 + Colon(s[1..])
  }

  lemma ColonUnique(s: string, i: nat)
    requires i <= |s| && (forall k :: 0 <= k < i ==> s[k] != ':') && (i < |s| ==> s[i] == ':')
    ensures Colon(s) == i
  {
  }

  /** The directories in the order in which they are taken from the PATH variable. */
  function Components(s: string): seq<string>
    decreases |s|
  {
    if s == [] then []
    else
      var i := Colon(s);
      [s[..i]] + Components(if i < |s| then s[i + 1..] else [])
  }

  // ----- what the components are -----

  function Join(dirs: seq<string>): string {
    if |dirs| == 0 then []
    else if |dirs| == 1 then dirs[0]
    else dirs[0] + [':'] + Join(dirs[1..])
  }

  predicate ColonFree(dirs: seq<string>) {
    forall i :: 0 <= i < |dirs| ==> ':' !in dirs[i]
  }

  lemma JoinStep(dir: string, dirs: seq<string>)
    requires |dirs| > 0
    ensures Join([dir] + dirs) == dir + [':'] + Join(dirs)
  {
    assert ([dir] + dirs)[1..] == dirs;
  }

  lemma ComponentsStep(dir: string, rest: string)
    requires ':' !in dir
    ensures Components(dir + [':'] + rest) == [dir] + Components(rest)
  {
    var s := dir + [':'] + rest;
    assert s[..|dir|] == dir && s[|dir| + 1..] == rest;
    ColonUnique(s, |dir|);
  }

  lemma ComponentsLast(dir: string)
    requires ':' !in dir && dir != []
    ensures Components(dir) == [dir]
  {
    assert dir[..|dir|] == dir;
    ColonUnique(dir, |dir|);
  }

  /** Splitting what was joined gives the directories back, an empty last one dropped. */
  lemma {:induction false} JoinedComponents(dirs: seq<string>)
    requires |dirs| > 0 && ColonFree(dirs)
    ensures Components(Join(dirs)) == if dirs[|dirs| - 1] == [] then dirs[..|dirs| - 1] else dirs
    decreases |dirs|
  {
    hide Components;
    if |dirs| == 1 {
      Nowhere();
      if dirs[0] != [] {
        ComponentsLast(dirs[0]);
        assert dirs == [dirs[0]];
      }
    } else {
      ComponentsStep(dirs[0], Join(dirs[1..]));
      JoinedComponents(dirs[1..]);
    }
  }

  /** The directories with the empty last one that was dropped. */
  function AllDirs(s: string): seq<string> {
    Components(s) + if s != [] && s[|s| - 1] == ':' then [[]] else []
  }

  /** Every value of the variable is such a joining, so the above is about all of them. */
  lemma {:induction false} ComponentsJoin(s: string)
    requires s != []
    ensures Join(AllDirs(s)) == s && ColonFree(AllDirs(s))
    decreases |s|
  {
    hide Components, Join;
    var i := Colon(s);
    var dir := s[..i];
    if i < |s| {
      var rest := s[i + 1..];
      assert s == dir + [':'] + rest;
      ComponentsStep(dir, rest);
      if rest == [] {
        Nowhere();
        assert AllDirs(s) == [dir] + [[]];
        JoinStep(dir, [[]]);
        JoinOne([]);
      } else {
        ComponentsJoin(rest);
        assert AllDirs(s) == [dir] + AllDirs(rest);
        SomeDirs(rest);
        JoinStep(dir, AllDirs(rest));
      }
    } else {
      assert dir == s;
      ComponentsLast(s);
      assert s[|s| - 1] in s;
      assert AllDirs(s) == [s];
      JoinOne(s);
    }
  }

  lemma JoinOne(dir: string)
    ensures Join([dir]) == dir
  {
  }

  lemma SomeDirs(s: string)
    requires s != []
    ensures |AllDirs(s)| > 0
  {
  }

  lemma Nowhere()
    ensures Components([]) == []
  {
  }

  // ----- the search -----

  /** The name that is tried in a directory: the directory, one slash, and the name. */
  function FullPath(dir: string, name: string): (r: string)
    ensures |r| == |dir| + 1 + |name| && r[..|dir|] == dir && r[|dir|] == '/' && r[|dir| + 1..] == name
  {
    dir + ['/'] + name
  }

  /** The first directory where `name` is a regular file, and the directories after it. */
  function FirstFile(dirs: seq<string>, name: string, isFile: string -> bool): (Option<string>, seq<string>) {
    if dirs == [] then (None, [])
    else if isFile(FullPath(dirs[0], name)) then (Some(FullPath(dirs[0], name)), dirs[1..])
    else FirstFile(dirs[1..], name, isFile)
  }

  /** All the files that calling for the next one over and over gives. */
  function Candidates(dirs: seq<string>, name: string, isFile: string -> bool): seq<string> {
    if dirs == [] then []
    else (if isFile(FullPath(dirs[0], name)) then [FullPath(dirs[0], name)] else [])
         + Candidates(dirs[1..], name, isFile)
  }

  lemma {:induction false} NextCandidate(dirs: seq<string>, name: string, isFile: string -> bool)
    ensures var (file, rest) := FirstFile(dirs, name, isFile);
            && Candidates(dirs, name, isFile)
               == (if file.None? then [] else [file.value] + Candidates(rest, name, isFile))
            && (file.Some? ==> |rest| < |dirs|)
    decreases |dirs|
  {
    if dirs != [] {
      NextCandidate(dirs[1..], name, isFile);
    }
  }

  /** The names in the directories, in their order. */
  function Names(dirs: seq<string>, name: string): (r: seq<string>)
    ensures |r| == |dirs| && forall i :: 0 <= i < |dirs| ==> r[i] == dirs[i] + "/" + name
  {
    seq(|dirs|, i requires 0 <= i < |dirs| => dirs[i] + "/" + name)
  }

  /** `files` are at the places `at` of `names`. */
  ghost predicate Placed(names: seq<string>, files: seq<string>, at: seq<nat>) {
    |at| == |files| && forall k :: 0 <= k < |at| ==> at[k] < |names| && files[k] == names[at[k]]
  }

  ghost predicate Increasing(at: seq<nat>) {
    forall k, l :: 0 <= k < l < |at| ==> at[k] < at[l]
  }

  /** `files` are the regular files among `names`, all of them and in the same order, at the places `at`. */
  ghost predicate Selected(names: seq<string>, isFile: string -> bool, files: seq<string>, at: seq<nat>) {
    && Placed(names, files, at) && Increasing(at)
    && (forall i :: i in at ==> i < |names| && isFile(names[i]))
    && (forall i :: 0 <= i < |names| && isFile(names[i]) ==> i in at)
  }

  function Shift(s: seq<nat>): (t: seq<nat>)
    ensures |t| == |s| && forall k :: 0 <= k < |s| ==> t[k] == s[k] + 1
  {
    seq(|s|, k requires 0 <= k < |s| => s[k] + 1)
  }

  lemma Shifted(s: seq<nat>, i: nat)
    ensures i in Shift(s) <==> i > 0 && i - 1 in s
  {
    if i > 0 && i - 1 in s {
      var k :| 0 <= k < |s| && s[k] == i - 1;
      assert Shift(s)[k] == i;
    }
  }

  lemma PlacedLater(names: seq<string>, files: seq<string>, at: seq<nat>)
    requires names != [] && Placed(names[1..], files, at)
    ensures Placed(names, files, Shift(at))
    ensures Placed(names, [names[0]] + files, [0] + Shift(at))
  {
    forall k | 0 <= k < |at| ensures Shift(at)[k] < |names| && files[k] == names[Shift(at)[k]] {
      assert names[1..][at[k]] == names[at[k] + 1];
    }
  }

  lemma IncreasingLater(at: seq<nat>)
    requires Increasing(at)
    ensures Increasing(Shift(at)) && Increasing([0] + Shift(at))
  {
    var later := Shift(at);
    assert Increasing(later);
    forall k, l | 0 <= k < l < |[0] + later| ensures ([0] + later)[k] < ([0] + later)[l] {
      assert ([0] + later)[l] == later[l - 1];
      if k > 0 {
        assert ([0] + later)[k] == later[k - 1];
      }
    }
  }

  lemma SelectedNext(names: seq<string>, isFile: string -> bool, files: seq<string>, at: seq<nat>)
    requires names != [] && Selected(names[1..], isFile, files, at)
    ensures if isFile(names[0]) then Selected(names, isFile, [names[0]] + files, [0] + Shift(at))
            else Selected(names, isFile, files, Shift(at))
  {
    hide Placed, Increasing;
    PlacedLater(names, files, at);
    IncreasingLater(at);
    forall i: nat ensures i in Shift(at) <==> 0 < i < |names| && isFile(names[i]) {
      Shifted(at, i);
      if 0 < i < |names| {
        assert names[1..][i - 1] == names[i];
      }
    }
  }

  /** The candidates are the regular files among the names in the directories, all of them and in order. */
  lemma {:induction false} CandidatesAre(dirs: seq<string>, name: string, isFile: string -> bool)
    returns (at: seq<nat>)
    ensures Selected(Names(dirs, name), isFile, Candidates(dirs, name, isFile), at)
    decreases |dirs|
  {
    hide Selected;
    if dirs == [] {
      at := [];
      NothingSelected(isFile);
    } else {
      var rest := CandidatesAre(dirs[1..], name, isFile);
      var files := Candidates(dirs[1..], name, isFile);
      assert Names(dirs, name)[1..] == Names(dirs[1..], name);
      SelectedNext(Names(dirs, name), isFile, files, rest);
      at := if isFile(FullPath(dirs[0], name)) then [0] + Shift(rest) else Shift(rest);
      assert [] + files == files;
    }
  }

  lemma NothingSelected(isFile: string -> bool)
    ensures Selected([], isFile, [], [])
  {
  }

  class Cursor {
    const path: array<char>
    var next: nat

    ghost predicate Valid()
      reads this, path
    {
      && next < path.Length && path[path.Length - 1] == '\0'
      && forall i :: next <= i < path.Length - 1 ==> path[i] != '\0'
    }

    /** The part of the variable that is not passed yet. */
    ghost function Rest(): string
      requires Valid()
      reads this, path
    {
      path[next..path.Length - 1]
    }

    /** exepath_init, for a variable that is set. */
    constructor (value: string)
      requires '\0' !in value
      ensures Valid() && fresh(path) && Rest() == value
    {
      next := 0;
      path := new char[|value| + 1](i => if 0 <= i < |value| then value[i] else '\0');
    }

    /** strchr() for the separator; the end of the variable if there is none. */
    method FindEnd() returns (end: nat)
      requires Valid()
      ensures end == next + Colon(Rest()) < path.Length
    {
      end := next;
      while path[end] != '\0' && path[end] != ':'
        invariant next <= end < path.Length
        invariant forall i :: next <= i < end ==> path[i] != ':'
        decreases path.Length - end
      {
        end := end + 1;
      }
      ghost var r := Rest();
      ColonUnique(r, end - next);
    }

    /** The next directory, taken off the front. */
    method TakeDirectory() returns (dir: string)
      requires Valid() && Rest() != []
      modifies this, path
      ensures Valid() && |Rest()| < |old(Rest())|
      ensures Components(old(Rest())) == [dir] + Components(Rest())
    {
      ghost var r := Rest();
      var start := next;
      var end := FindEnd();
      if path[end] == '\0' {
        next := end;
      } else {
        next := end + 1;
        path[end] := '\0';
      }
      dir := path[start..end];
      assert dir == r[..end - start];
      if end - start < |r| {
        assert Rest() == r[end - start + 1..];
      } else {
        assert Rest() == [];
      }
    }

    /** exepath_next. */
    method Next(name: string, isFile: string -> bool) returns (file: Option<string>)
      requires Valid()
      modifies this, path
      ensures Valid()
      ensures file == FirstFile(Components(old(Rest())), name, isFile).0
      ensures Components(Rest()) == FirstFile(Components(old(Rest())), name, isFile).1
      ensures if file.Some? then |Rest()| < |old(Rest())| else Rest() == []
    {
      hide Components;
      while path[next] != '\0'
        invariant Valid() && |Rest()| <= |old(Rest())|
        invariant FirstFile(Components(Rest()), name, isFile)
                  == FirstFile(Components(old(Rest())), name, isFile)
        decreases |Rest()|
      {
        ghost var before := Rest();
        assert before[0] == path[next];
        var dir := TakeDirectory();
        assert Components(before)[1..] == Components(Rest());
        if isFile(FullPath(dir, name)) {
          return Some(FullPath(dir, name));
        }
      }
      assert Rest() == [];
      Nowhere();
      return None;
    }
  }
}
