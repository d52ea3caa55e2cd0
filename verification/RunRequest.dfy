/** A RUN or EVAL request from the client's environment to the child's
    (send_run_request in protocol.rs, the daemon's decoding, child_main). */
module RunRequest {
  import opened Words
  import opened Wrappers
  import opened Text
  import opened WireSpec
  import RunFlags
  import Base64Spec
  import WireBase64
  import Wire
  import WireLaws
  import WireCuts

  const RS: byte := 0x1e
  const EQUALS: byte := 61
  const NUL: byte := 0

  type Pairs = seq<(text, text)>
  type Env = map<text, text>

  const RUN_FLAGS: text := Ascii("CALISTO_RUN_FLAGS")

  /** Variables of the client's own that are not passed on. */
  const WITHHELD: seq<text> := [
    Ascii("CALISTO_RUNTIME_DIR"), Ascii("CALISTO_SOCKET"), Ascii("CALISTO_PIDFILE"), Ascii("CALISTO_PRELOAD"),
    Ascii("CALISTO_COMPACT"), Ascii("CALISTO_YJIT"), Ascii("CALISTO_WARMUP"), Ascii("CALISTO_RUBY")]

  // ----- the client -----

  function Passed(vars: Pairs): Pairs {
    if vars == [] then []
    else (if vars[0].0 in WITHHELD then [] else [vars[0]]) + Passed(vars[1..])
  }

  /** The pairs sent: inherited, then extras, then the flags unless default. */
  function SentPairs(vars: Pairs, extra: Pairs, flags: RunFlags.Flags): Pairs {
    Passed(vars) + extra + if RunFlags.Any(flags) then [(RUN_FLAGS, RunFlags.BlobOf(flags))] else []
  }

  function Assignments(pairs: Pairs): (parts: seq<text>)
    ensures |parts| == |pairs|
    ensures forall i :: 0 <= i < |pairs| ==> parts[i] == pairs[i].0 + [EQUALS] + pairs[i].1
  {
    seq(|pairs|, i requires 0 <= i < |pairs| => pairs[i].0 + [EQUALS] + pairs[i].1)
  }

  function EnvBlob(pairs: Pairs): text {
    Join(Assignments(pairs), RS)
  }

  function Encode(s: text): text { Base64Spec.Encoded(s, false) }

  function EncodeAll(texts: seq<text>): (r: seq<text>)
    ensures |r| == |texts| && forall i :: 0 <= i < |texts| ==> r[i] == Encode(texts[i])
  {
    seq(|texts|, i requires 0 <= i < |texts| => Encode(texts[i]))
  }

  function RequestTexts(cwd: text, pairs: Pairs, subject: text, args: seq<text>): seq<text> {
    [cwd, EnvBlob(pairs), subject] + args
  }

  /** The bytes of the request. */
  method BuildRequest(op: text, cwd: text, vars: Pairs, extra: Pairs, subject: text, args: seq<text>,
                      flags: RunFlags.Flags) returns (bytes: seq<byte>)
    ensures bytes == Command(op, EncodeAll(RequestTexts(cwd, SentPairs(vars, extra, flags), subject, args)))
  {
    hide Encode, Join, Command, Passed, Assignments, EncodeAll;
    AssignmentsAppend([], []);
    var parts: seq<text> := [];
    for i := 0 to |vars|
      invariant parts + Assignments(Passed(vars[i..])) == Assignments(Passed(vars))
    {
      ghost var rest := Assignments(Passed(vars[i + 1..]));
      PassedUnfolds(vars[i..]);
      assert vars[i..][1..] == vars[i + 1..];
      if vars[i].0 !in WITHHELD {
        assert parts + ([vars[i].0 + [EQUALS] + vars[i].1] + rest) == parts + [vars[i].0 + [EQUALS] + vars[i].1] + rest;
        parts := parts + [vars[i].0 + [EQUALS] + vars[i].1];
      } else {
        assert parts + ([] + rest) == parts + rest;
      }
    }
    PassedNothing(vars[|vars|..]);
    ghost var inherited := Passed(vars);
    assert parts + [] == parts && inherited + extra[..0] == inherited;
    for i := 0 to |extra|
      invariant parts == Assignments(inherited + extra[..i])
    {
      assert inherited + extra[..i + 1] == (inherited + extra[..i]) + [extra[i]];
      AssignmentsAppend(inherited + extra[..i], [extra[i]]);
      parts := parts + [extra[i].0 + [EQUALS] + extra[i].1];
    }
    assert extra[..|extra|] == extra;
    if RunFlags.Any(flags) {
      var blob := RunFlags.Blob(flags);
      AssignmentsAppend(inherited + extra, [(RUN_FLAGS, blob)]);
      parts := parts + [RUN_FLAGS + [EQUALS] + blob];
    }
    assert inherited + extra + [] == inherited + extra;
    assert parts == Assignments(SentPairs(vars, extra, flags));
    var envBlob := Join(parts, RS);
    var fields := [Encode(cwd), Encode(envBlob), Encode(subject)];
    assert [cwd, envBlob, subject] + args[..0] == [cwd, envBlob, subject];
    assert fields == EncodeAll([cwd, envBlob, subject]);
    for i := 0 to |args|
      invariant fields == EncodeAll([cwd, envBlob, subject] + args[..i])
    {
      EncodeAllAppend([cwd, envBlob, subject] + args[..i], args[i]);
      assert [cwd, envBlob, subject] + args[..i + 1] == ([cwd, envBlob, subject] + args[..i]) + [args[i]];
      fields := fields + [Encode(args[i])];
    }
    assert args[..|args|] == args;
    bytes := Wire.BuildCmd(op, fields);
  }

  lemma AssignmentsAppend(a: Pairs, b: Pairs)
    ensures Assignments(a + b) == Assignments(a) + Assignments(b)
    ensures |b| == 1 ==> Assignments(b) == [b[0].0 + [EQUALS] + b[0].1]
    ensures Assignments([]) == []
  {
  }

  lemma EncodeAllAppend(texts: seq<text>, t: text)
    ensures EncodeAll(texts + [t]) == EncodeAll(texts) + [Encode(t)]
  {
  }

  lemma PassedUnfolds(vars: Pairs)
    requires vars != []
    ensures Assignments(Passed(vars)) ==
      (if vars[0].0 in WITHHELD then [] else [vars[0].0 + [EQUALS] + vars[0].1]) + Assignments(Passed(vars[1..]))
  {
  }

  lemma PassedNothing(vars: Pairs)
    requires vars == []
    ensures Passed(vars) == []
  {
  }

  // ----- the child -----

  /** setenv: an empty name is refused; a C string with a NUL in it becomes empty. */
  function CString(s: text): text {
    if NUL in s then [] else s
  }

  function SetEnv(env: Env, k: text, v: text): Env {
    if CString(k) == [] then env else env[CString(k) := CString(v)]
  }

  function SetPair(env: Env, pair: text): Env {
    match SplitOnce(pair, EQUALS)
    case None => env
    case Some((k, v)) => SetEnv(env, k, v)
  }

  function SetAll(env: Env, parts: seq<text>): Env
    decreases |parts|
  {
    if parts == [] then env else SetAll(SetPair(env, parts[0]), parts[1..])
  }

  /** The environment the child's script runs in. */
  function EnvOf(blob: text): Env {
    SetAll(map[], Split(blob, RS)) - {RUN_FLAGS}
  }

  /** The flags the child parses before it removes their variable. */
  function FlagsOf(blob: text): RunFlags.Flags {
    var all := SetAll(map[], Split(blob, RS));
    RunFlags.Parsed(if RUN_FLAGS in all then all[RUN_FLAGS] else [])
  }

  method ReplaceEnv(blob: text) returns (env: Env, flags: RunFlags.Flags)
    ensures env == EnvOf(blob) && flags == FlagsOf(blob)
  {
    env := map[];
    var parts := Split(blob, RS);
    assert parts[0..] == parts;
    for i := 0 to |parts|
      invariant SetAll(map[], parts) == SetAll(env, parts[i..])
    {
      assert parts[i..][1..] == parts[i + 1..];
      var kv := SplitOnce(parts[i], EQUALS);
      if kv.Some? {
        env := SetEnv(env, kv.value.0, kv.value.1);
      }
    }
    flags := RunFlags.Parse(if RUN_FLAGS in env then env[RUN_FLAGS] else []);
    env := env - {RUN_FLAGS};
  }

  // ----- end to end -----

  /** A pair the environment form can carry. */
  predicate Carried(p: (text, text)) {
    && p.0 != [] && EQUALS !in p.0 && RS !in p.0 && NUL !in p.0
    && RS !in p.1 && NUL !in p.1
  }

  /** The value of the last pair for k. */
  function LastValue(pairs: Pairs, k: text): Option<text> {
    if pairs == [] then None
    else if pairs[|pairs| - 1].0 == k then Some(pairs[|pairs| - 1].1)
    else LastValue(pairs[..|pairs| - 1], k)
  }

  /** The environment in which every name has the value of its last pair. */
  ghost predicate LaterWins(env: Env, pairs: Pairs) {
    forall k :: (if k in env then Some(env[k]) else None) == LastValue(pairs, k)
  }

  lemma {:induction false} SetAllAppend(env: Env, parts: seq<text>, last: text)
    ensures SetAll(env, parts + [last]) == SetPair(SetAll(env, parts), last)
    decreases |parts|
  {
    hide SetPair;
    if parts == [] {
      assert (parts + [last])[1..] == [];
    } else {
      assert (parts + [last])[1..] == parts[1..] + [last];
      SetAllAppend(SetPair(env, parts[0]), parts[1..], last);
    }
  }

  lemma SetCarriedPair(env: Env, p: (text, text))
    requires Carried(p)
    ensures SetPair(env, p.0 + [EQUALS] + p.1) == env[p.0 := p.1]
  {
    hide Until;
    var s := p.0 + [EQUALS] + p.1;
    UntilSeparator(p.0, EQUALS, p.1);
    assert s[..|p.0|] == p.0 && s[|p.0| + 1..] == p.1;
  }

  lemma {:induction false} SetAllLaterWins(pairs: Pairs)
    requires forall p :: p in pairs ==> Carried(p)
    ensures LaterWins(SetAll(map[], Assignments(pairs)), pairs)
    decreases |pairs|
  {
    hide SetPair, Carried;
    if pairs != [] {
      var front, p := pairs[..|pairs| - 1], pairs[|pairs| - 1];
      SetAllLaterWins(front);
      assert Assignments(pairs) == Assignments(front) + [p.0 + [EQUALS] + p.1];
      SetAllAppend(map[], Assignments(front), p.0 + [EQUALS] + p.1);
      SetCarriedPair(SetAll(map[], Assignments(front)), p);
    }
  }

  /** The child's environment before the flags are taken out: every name has the
      value of its last pair, so extras override inherited variables. */
  lemma EnvArrives(pairs: Pairs)
    requires forall p :: p in pairs ==> Carried(p)
    ensures LaterWins(SetAll(map[], Split(EnvBlob(pairs), RS)), pairs)
  {
    hide SetAll, LaterWins;
    SetAllLaterWins(pairs);
    var parts := Assignments(pairs);
    if pairs == [] {
      NoPairs();
    } else {
      forall a | a in parts ensures RS !in a {
        var i :| 0 <= i < |parts| && parts[i] == a;
        assert pairs[i] in pairs;
      }
      SplitJoin(parts, RS);
    }
  }

  lemma NoPairs()
    ensures SetAll(map[], Split(EnvBlob([]), RS)) == map[] && SetAll(map[], Assignments([])) == map[]
  {
    assert Split([], RS) == [[]];
    assert SetAll(SetPair(map[], []), [[]][1..]) == map[];
  }

  /** The request read from the buffer and decoded: the same operation, working
      directory, environment form, subject and arguments, and the bytes after
      the request untouched. */
  lemma RequestArrives(c: Conn, op: text, texts: seq<text>, rest: seq<byte>)
    requires WireLaws.ValidOp(op) && WireLaws.Sized(EncodeAll(texts))
    requires c.buf == Command(op, EncodeAll(texts)) + rest
    ensures
      var (r, c') := ReadCommand(c);
      && r.Got? && r.value.0 == op && c' == c.(buf := rest)
      && |r.value.1| == |texts|
      && forall i :: 0 <= i < |texts| ==> WireBase64.Blocks(r.value.1[i]) == Some(texts[i])
  {
    hide ReadCommand, Command, WireBase64.Blocks;
    WireLaws.BufferedCommandRead(c, op, EncodeAll(texts), rest);
    forall i | 0 <= i < |texts| ensures WireBase64.Blocks(EncodeAll(texts)[i]) == Some(texts[i]) {
      WireBase64.WireRoundTrip(texts[i]);
    }
  }

  /** Exactly these names of the client's own variables are kept back. */
  predicate KeptBack(k: text) {
    || k == Ascii("CALISTO_RUNTIME_DIR") || k == Ascii("CALISTO_SOCKET") || k == Ascii("CALISTO_PIDFILE")
    || k == Ascii("CALISTO_PRELOAD") || k == Ascii("CALISTO_COMPACT") || k == Ascii("CALISTO_YJIT")
    || k == Ascii("CALISTO_WARMUP") || k == Ascii("CALISTO_RUBY")
  }

  lemma {:induction false} PassedValue(vars: Pairs, k: text)
    ensures LastValue(Passed(vars), k) == if KeptBack(k) then None else LastValue(vars, k)
    decreases |vars|
  {
    hide KeptBack;
    WithheldExactly(k);
    if vars != [] {
      var front, last := vars[..|vars| - 1], vars[|vars| - 1];
      PassedValue(front, k);
      WithheldExactly(last.0);
      PassedAppend(front, last);
      assert vars == front + [last];
      var kept := if last.0 in WITHHELD then [] else [last];
      assert Passed(front) + [] == Passed(front) && (Passed(front) + [last])[..|Passed(front)|] == Passed(front);
    }
  }

  lemma {:induction false} PassedAppend(vars: Pairs, p: (text, text))
    ensures Passed(vars + [p]) == Passed(vars) + if p.0 in WITHHELD then [] else [p]
    decreases |vars|
  {
    if vars == [] {
      assert (vars + [p])[1..] == [];
    } else {
      assert (vars + [p])[1..] == vars[1..] + [p];
      PassedAppend(vars[1..], p);
    }
  }

  lemma WithheldExactly(k: text)
    ensures k in WITHHELD <==> KeptBack(k)
  {
  }

  lemma {:induction false} LastValueAppend(a: Pairs, b: Pairs, k: text)
    ensures LastValue(a + b, k) == if LastValue(b, k).Some? then LastValue(b, k) else LastValue(a, k)
    decreases |b|
  {
    if b == [] {
      assert a + b == a;
    } else {
      assert (a + b)[..|a + b| - 1] == a + b[..|b| - 1];
      LastValueAppend(a, b[..|b| - 1], k);
    }
  }

  /** The eight names reach the child only as extras; every other name has the
      value of its last pair among the client's variables and the extras. */
  lemma KeptBackExactly(vars: Pairs, extra: Pairs, k: text)
    ensures LastValue(Passed(vars) + extra, k) == LastValue(if KeptBack(k) then extra else vars + extra, k)
  {
    hide KeptBack;
    LastValueAppend(Passed(vars), extra, k);
    LastValueAppend(vars, extra, k);
    PassedValue(vars, k);
  }

  /** A request never arrives whose environment, or any other of its texts, has
      49,150 bytes or more: encoded it fills a receive. */
  lemma LongTextIsLost(c: Conn, op: text, texts: seq<text>, rest: seq<byte>, i: nat)
    requires WireLaws.ValidOp(op) && WireLaws.Sized(EncodeAll(texts))
    requires c.buf == [] && WireCuts.Trickling(c) && WireCuts.Capped(c)
    requires WireCuts.Held(c) == Command(op, EncodeAll(texts)) + rest
    requires i < |texts| && |texts[i]| >= 49_150
    ensures !WireCuts.Exact(WireLaws.Drive(c), op, EncodeAll(texts), rest)
  {
    hide WireLaws.Drive, Command, WireCuts.Held, WireCuts.Trickling, WireCuts.Capped, Base64Spec.Sextets;
    Base64Spec.SextetCount(texts[i]);
    WireCuts.LongFieldIsLost(c, op, EncodeAll(texts), rest, i);
  }

  function ChildFlags(pairs: Pairs): RunFlags.Flags {
    FlagsOf(EnvBlob(pairs))
  }

  predicate CarriedFlags(f: RunFlags.Flags) {
    f != RunFlags.DEFAULT ==> RunFlags.Carried(f) && RS !in RunFlags.BlobOf(f) && NUL !in RunFlags.BlobOf(f)
  }

  /** The child's flags are the client's when the client sends any; when the
      client's are default they are whatever an inherited CALISTO_RUN_FLAGS or
      an extra of that name says. */
  lemma FlagsArrive(vars: Pairs, extra: Pairs, flags: RunFlags.Flags)
    requires (forall p :: p in Passed(vars) ==> Carried(p)) && (forall p :: p in extra ==> Carried(p)) && CarriedFlags(flags)
    ensures
      var inherited := LastValue(Passed(vars) + extra, RUN_FLAGS);
      ChildFlags(SentPairs(vars, extra, flags)) ==
      if flags != RunFlags.DEFAULT then flags
      else RunFlags.Parsed(if inherited.Some? then inherited.value else [])
  {
    hide Passed, RunFlags.Parsed, SetAll, RunFlags.Carried;
    var pairs := SentPairs(vars, extra, flags);
    FlagsNameCarried();
    assert forall p :: p in pairs ==> Carried(p);
    EnvArrives(pairs);
    var all := SetAll(map[], Split(EnvBlob(pairs), RS));
    assert (if RUN_FLAGS in all then Some(all[RUN_FLAGS]) else None) == LastValue(pairs, RUN_FLAGS);
    if RunFlags.Any(flags) {
      RunFlags.BlobRoundTripExactly(flags);
      assert pairs[|pairs| - 1].0 == RUN_FLAGS;
    } else {
      assert pairs == Passed(vars) + extra;
    }
  }

  lemma FlagsNameCarried()
    ensures RUN_FLAGS != [] && EQUALS !in RUN_FLAGS && RS !in RUN_FLAGS && NUL !in RUN_FLAGS
  {
    assert forall i :: 0 <= i < |RUN_FLAGS| ==> RUN_FLAGS[i] >= 65;
  }

  /** Default flags stay default in the child exactly when no variable of that
      name is passed on, or none of the segments of its last value means
      anything. */
  lemma DefaultFlagsExactly(vars: Pairs, extra: Pairs)
    requires (forall p :: p in Passed(vars) ==> Carried(p)) && (forall p :: p in extra ==> Carried(p))
    ensures
      var inherited := LastValue(Passed(vars) + extra, RUN_FLAGS);
      ChildFlags(SentPairs(vars, extra, RunFlags.DEFAULT)) == RunFlags.DEFAULT <==>
      (inherited.None? || forall s :: s in Split(inherited.value, RunFlags.US) ==> !RunFlags.Recognised(s))
  {
    hide RunFlags.Parsed, RunFlags.Recognised;
    FlagsArrive(vars, extra, RunFlags.DEFAULT);
    RunFlags.NothingParsed();
    var inherited := LastValue(Passed(vars) + extra, RUN_FLAGS);
    if inherited.Some? {
      RunFlags.ParsedDefaultExactly(inherited.value);
    }
  }

  /** A client started with CALISTO_RUN_FLAGS=w in its own environment and no
      flags of its own has its child run verbose. */
  lemma InheritedFlagsLeak()
    ensures ChildFlags(SentPairs([(RUN_FLAGS, [119])], [], RunFlags.DEFAULT)).verbose == Some(-1)
  {
    var vars: Pairs := [(RUN_FLAGS, [119])];
    FlagsNameCarried();
    NotWithheld();
    assert Passed(vars[1..]) == [];
    assert Passed(vars) == vars && vars + [] == vars;
    FlagsArrive(vars, [], RunFlags.DEFAULT);
    assert LastValue(vars, RUN_FLAGS) == Some([119]);
    assert Until([119], RunFlags.US) == 1;
    assert Split([119], RunFlags.US) == [[119]];
    RunFlags.ApplyOne(RunFlags.DEFAULT, [119]);
  }

  lemma NotWithheld()
    ensures RUN_FLAGS !in WITHHELD
  {
    assert RUN_FLAGS[8] == 'R' as int && RUN_FLAGS[11] == '_' as int;
    assert |RUN_FLAGS| == 17;
    forall i | 0 <= i < |WITHHELD| ensures WITHHELD[i] != RUN_FLAGS {
      assert |WITHHELD[i]| != 17;
    }
  }

  lemma FlagsAreLast(pairs: Pairs, blob: text)
    ensures forall k :: k != RUN_FLAGS ==> LastValue(pairs + [(RUN_FLAGS, blob)], k) == LastValue(pairs, k)
    ensures pairs + [] == pairs
  {
    assert (pairs + [(RUN_FLAGS, blob)])[..|pairs|] == pairs;
  }

  /** End to end: from the bytes the client writes, the daemon takes exactly the
      request, and its child gets the client's operation, directory, subject and
      arguments, the client's variables with later pairs winning and without the
      flags' own variable, and the flags. */
  lemma EndToEnd(c: Conn, op: text, cwd: text, vars: Pairs, extra: Pairs, subject: text, args: seq<text>,
                 flags: RunFlags.Flags, rest: seq<byte>)
    requires WireLaws.ValidOp(op)
    requires (forall p :: p in Passed(vars) ==> Carried(p)) && (forall p :: p in extra ==> Carried(p)) && CarriedFlags(flags)
    requires
      var texts := RequestTexts(cwd, SentPairs(vars, extra, flags), subject, args);
      WireLaws.Sized(EncodeAll(texts)) && c.buf == Command(op, EncodeAll(texts)) + rest
    ensures
      var pairs := SentPairs(vars, extra, flags);
      var (r, c') := ReadCommand(c);
      && r.Got? && r.value.0 == op && |r.value.1| == 3 + |args| && c' == c.(buf := rest)
      && WireBase64.Blocks(r.value.1[0]) == Some(cwd)
      && WireBase64.Blocks(r.value.1[2]) == Some(subject)
      && (forall i :: 0 <= i < |args| ==> WireBase64.Blocks(r.value.1[3 + i]) == Some(args[i]))
      && WireBase64.Blocks(r.value.1[1]) == Some(EnvBlob(pairs))
      && (forall k :: (if k in EnvOf(EnvBlob(pairs)) then Some(EnvOf(EnvBlob(pairs))[k]) else None) ==
            if k == RUN_FLAGS then None else LastValue(Passed(vars) + extra, k))
      && FlagsOf(EnvBlob(pairs)) ==
         (if flags != RunFlags.DEFAULT then flags
          else
            var inherited := LastValue(Passed(vars) + extra, RUN_FLAGS);
            RunFlags.Parsed(if inherited.Some? then inherited.value else []))
  {
    hide Passed, ReadCommand, Command, WireBase64.Blocks, SetAll, EnvBlob, EncodeAll, RunFlags.Carried, RunFlags.Parsed;
    var pairs := SentPairs(vars, extra, flags);
    var texts := RequestTexts(cwd, pairs, subject, args);
    RequestArrives(c, op, texts, rest);
    FlagsNameCarried();
    assert forall p :: p in pairs ==> Carried(p);
    EnvArrives(pairs);
    FlagsArrive(vars, extra, flags);
    FlagsAreLast(Passed(vars) + extra, RunFlags.BlobOf(flags));
    hide FlagsOf;
    assert texts[1] == EnvBlob(pairs) && forall i :: 0 <= i < |args| ==> texts[3 + i] == args[i];
  }
}
