/** The interpreter over the bytes of a script file: lines are read from the current file position, cut
    into commands and run; `done` seeks to the file position at which its loop head was found. */
module NshBytes {
  import opened NshMachine
  import opened NshCommands
  import opened NshText

  /** CONFIG_NSH_LINELEN. */
  const LINELEN: nat := 80

  /** The width of np_loffs. */
  function Uint16(n: nat): nat { n % 0x1_0000 }

  /** nsh_parse from `working` on; the current command began at `start`. */
  function ParseFrom<E>(run: Behaviour<E>, np: Np, env: E, line: string, start: nat, working: nat): (r: Step<E>)
    requires InBounds(np) && start <= working <= |line|
    ensures InBounds(r.np)
    decreases |line| - working
  {
    var np1 := np.(loffs := Uint16(working));
    var ptr := NextDelimiter(line, working);
    if ptr == |line| || line[ptr] == '\n' || line[ptr] == '#' then
      ParseCommand(run, np1, env, Words(line[start..], 0))
    else if line[ptr] == ';' then
      var r := ParseCommand(run, np1, env, Words(line[start..ptr], 0));
      if r.ok && !r.np.jump then ParseFrom(run, r.np, r.env, line, ptr + 1, ptr + 1) else r
    else
      var close := NextQuote(line, ptr + 1);
      if close == |line| then Step(np1, env, false)
      else ParseFrom(run, np1, env, line, start, close + 1)
  }

  /** nsh_parse. */
  function ParseLine<E>(run: Behaviour<E>, np: Np, env: E, line: string): (r: Step<E>)
    requires InBounds(np)
    ensures InBounds(r.np)
  {
    ParseFrom(run, np.(jump := false), env, line, 0, 0)
  }

  /** fgets: up to and including a newline, at most LINELEN - 1 characters. */
  function LineEnd(file: string, pos: nat, room: nat): (end: nat)
    requires pos <= |file|
    ensures pos <= end <= |file| && end <= pos + room
    decreases room
  {
    if room == 0 || pos == |file| then pos
    else if file[pos] == '\n' then pos + 1
    else LineEnd(file, pos + 1, room - 1)
  }

  /** One turn of the loop of nsh_script. */
  function ReadLine<E>(run: Behaviour<E>, file: string, m: Machine<E>): (m': Machine<E>)
    requires InBounds(m.np)
    ensures InBounds(m'.np)
  {
    if m.done then m
    else if !(0 <= m.np.fpos < |file|) then m.(np := m.np.(foffs := m.np.fpos, loffs := 0), done := true)
    else
      var pos := m.np.fpos;
      var end := LineEnd(file, pos, LINELEN - 1);
      var r := ParseLine(run, m.np.(foffs := pos, loffs := 0, fpos := end), m.env, file[pos..end]);
      Machine(r.np, r.env, r.ok, !r.ok)
  }

  function ReadLines<E>(run: Behaviour<E>, file: string, m: Machine<E>, n: nat): (m': Machine<E>)
    requires InBounds(m.np)
    ensures InBounds(m'.np)
    decreases n
  {
    if n == 0 then m else ReadLines(run, file, ReadLine(run, file, m), n - 1)
  }

  /** A reader that has stopped stays as it is. */
  lemma {:induction false} StopsReading<E>(run: Behaviour<E>, file: string, f: Machine<E>, n: nat)
    requires InBounds(f.np) && f.done
    ensures ReadLines(run, file, f, n) == f
    decreases n
  {
    hide ParseLine;
    if n > 0 {
      StopsReading(run, file, f, n - 1);
    }
  }
}
