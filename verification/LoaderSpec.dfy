/** The bundle's re-entrant loader. A file's body is what matters to loading:
    the files it requires, with the errors it rescues from them, the constants it
    defines and those it needs, a missing one raising NameError, and whether it
    fails otherwise. LoadError stands for whatever preload does not rescue. */
module LoaderSpec {

  type Path = string

  datatype Outcome = Done | NameError | LoadError

  datatype Stmt =
    | Load(target: Path, rescued: set<Outcome>)   // a require the bundle answers itself
    | Fail                                        // a delegated require that is not found, say
    | Define(name: string)
    | Use(name: string)

  /** The tables of the bundle; broken are the compiled files that fail to load. */
  datatype Bundle = Bundle(
    code: map<Path, seq<Stmt>>,
    native: set<Path>,
    broken: set<Path>,
    autoloads: map<Path, seq<Path>>)

  /** A body is entered, and left by running to its end or by an error; a body
      rescues a LoadError. */
  datatype Event = Enter(path: Path) | Complete(path: Path) | Abort(path: Path, cause: Outcome) | Rescued

  /** LOADING, LOADED, the constants, and what has run, oldest first. */
  datatype State = State(loading: set<Path>, loaded: set<Path>, defined: set<string>, log: seq<Event>) {
    function Note(e: Event): State { this.(log := log + [e]) }
  }

  function Universe(b: Bundle): set<Path> { b.code.Keys + b.native }

  function Targets(b: Bundle, abs: Path): seq<Path> {
    if abs in b.autoloads then b.autoloads[abs] else []
  }

  datatype Result = Result(outcome: Outcome, state: State)

  /** Files stay in LOADING when an error leaves them there, so it may grow. */
  function LoadFile(b: Bundle, s: State, abs: Path): (r: Result)
    ensures s.loading <= r.state.loading
    decreases Universe(b) - s.loading, 0, 0
  {
    if abs in s.loaded || abs in s.loading then Result(Done, s)
    else if abs in b.native then
      var s1 := s.Note(Enter(abs));
      if abs in b.broken then Result(LoadError, s1.Note(Abort(abs, LoadError)))
      else Result(Done, s1.Note(Complete(abs)).(loaded := s1.loaded + {abs}))
    else if abs !in b.code then Result(LoadError, s)
    else
      var s1 := s.(loading := s.loading + {abs});
      assert abs in Universe(b) - s.loading;
      var pre := Preload(b, s1, Targets(b, abs));
      if pre.outcome == LoadError then pre
      else
        var body := Exec(b, pre.state.Note(Enter(abs)), b.code[abs]);
        var s2 := body.state.(loading := body.state.loading - {abs});
        if body.outcome == Done then Result(Done, s2.Note(Complete(abs)).(loaded := s2.loaded + {abs}))
        else Result(body.outcome, s2.Note(Abort(abs, body.outcome)))
  }

  /** The state in which a body goes on after an error it rescues. */
  function Caught(r: Result): State {
    if r.outcome == LoadError then r.state.Note(Rescued) else r.state
  }

  /** The statements of a body, up to an error that is not rescued. */
  function Exec(b: Bundle, s: State, stmts: seq<Stmt>): (r: Result)
    ensures s.loading <= r.state.loading
    decreases Universe(b) - s.loading, 1, |stmts|
  {
    if stmts == [] then Result(Done, s)
    else match stmts[0]
      case Fail => Result(LoadError, s)
      case Define(name) => Exec(b, s.(defined := s.defined + {name}), stmts[1..])
      case Use(name) => if name in s.defined then Exec(b, s, stmts[1..]) else Result(NameError, s)
      case Load(target, rescued) =>
        var r := LoadFile(b, s, target);
        if r.outcome == Done || r.outcome in rescued then
          Shrinks(b, s.loading, r.state.loading);
          Exec(b, Caught(r), stmts[1..])
        else r
  }

  /** A larger LOADING leaves no more files to load. */
  lemma Shrinks(b: Bundle, small: set<Path>, large: set<Path>)
    requires small <= large
    ensures Universe(b) - large < Universe(b) - small || Universe(b) - large == Universe(b) - small
  {
  }

  datatype RoundResult = RoundResult(outcome: Outcome, state: State, left: seq<Path>)

  /** One round over the pending targets; those that raise NameError are left. */
  function Round(b: Bundle, s: State, targets: seq<Path>): (r: RoundResult)
    ensures |r.left| <= |targets|
    ensures r.outcome == Done || r.outcome == LoadError
    ensures s.loading <= r.state.loading
    decreases Universe(b) - s.loading, 1, |targets|
  {
    if targets == [] then RoundResult(Done, s, [])
    else
      var r := LoadFile(b, s, targets[0]);
      if r.outcome == LoadError then RoundResult(LoadError, r.state, [])
      else
        Shrinks(b, s.loading, r.state.loading);
        var rest := Round(b, r.state, targets[1..]);
        if r.outcome == Done || rest.outcome == LoadError then rest else rest.(left := [targets[0]] + rest.left)
  }

  /** Rounds until nothing is pending or a round makes no progress. */
  function Preload(b: Bundle, s: State, pending: seq<Path>): (r: Result)
    ensures r.outcome == Done || r.outcome == LoadError
    ensures s.loading <= r.state.loading
    decreases Universe(b) - s.loading, 2, |pending|
  {
    if pending == [] then Result(Done, s)
    else
      var r := Round(b, s, pending);
      if r.outcome == LoadError || |r.left| == |pending| then Result(r.outcome, r.state)
      else
        Shrinks(b, s.loading, r.state.loading);
        Preload(b, r.state, r.left)
  }
}
