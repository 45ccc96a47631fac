/**
 * The property converters and the lifecycle flag of the Docker service
 * (`org.radargun.service.DockerService`). `EnvsConverter` reads newline-separated environment
 * variables and `PortsConverter` newline-separated `port/protocol` lines; both write a list back
 * with a newline after every element. The Docker daemon is not part of this model: the service
 * records the commands it would send to it.
 */
module Docker {
  import opened Wrappers
  import opened JavaNumbers
  import JavaStrings

  // ---------------------------------------------------------------------------------------------
  // Environment variables

  /** Every line, trimmed, in order. */
  function TrimAll(ls: seq<string>): (r: seq<string>)
    ensures |r| == |ls| && forall i :: 0 <= i < |ls| ==> r[i] == JavaStrings.Trim(ls[i])
  {
    seq(|ls|, i requires 0 <= i < |ls| => JavaStrings.Trim(ls[i]))
  }

  /** What `EnvsConverter.convert` returns: the `'\n'`-separated lines of the text, each trimmed. */
  function EnvsOf(s: string): seq<string>
  {
    TrimAll(JavaStrings.Split(s, '\n'))
  }

  /** What `EnvsConverter.convertToString` returns: every variable followed by `'\n'`. */
  function EnvsToString(envs: seq<string>): string
  {
    JavaStrings.Terminated(envs, '\n')
  }

  /** `EnvsConverter.convert`'s loop: adds each line, trimmed, to the list. */
  method TrimLines(lines: seq<string>) returns (env: seq<string>)
    ensures env == TrimAll(lines)
  {
    ghost var trimmed := TrimAll(lines);
    env := [];
    var i := 0;
    while i < |lines|
      invariant 0 <= i <= |lines| && |env| == i
      invariant forall k :: 0 <= k < i ==> env[k] == trimmed[k]
    {
      assert trimmed[i] == JavaStrings.Trim(lines[i]);
      env := env + [JavaStrings.Trim(lines[i])];
      i := i + 1;
    }
  }

  /** `EnvsConverter.convert`: splits the text into lines and trims each. */
  method EnvsConvert(s: string) returns (env: seq<string>)
    ensures env == EnvsOf(s)
  {
    var lines := JavaStrings.Split(s, '\n');
    env := TrimLines(lines);
  }

  /** `EnvsConverter.convertToString`: appends each variable and a `'\n'`. */
  method EnvsConvertToString(envs: seq<string>) returns (s: string)
    ensures s == EnvsToString(envs)
  {
    s := "";
    var i := 0;
    while i < |envs|
      invariant 0 <= i <= |envs|
      invariant s == JavaStrings.Terminated(envs[..i], '\n')
    {
      JavaStrings.TerminatedAppend(envs[..i], envs[i], '\n');
      assert envs[..i + 1] == envs[..i] + [envs[i]];
      s := s + envs[i] + "\n";
      i := i + 1;
    }
    assert envs[..i] == envs;
  }

  /** A variable `convert` can return and `convertToString` writes back unchanged: trimmed, on one line. */
  predicate CleanEnv(e: string)
  {
    JavaStrings.IsTrimmed(e) && '\n' !in e
  }

  /** Every variable `convert` returns is trimmed and holds no line break. */
  lemma EnvsAreClean(s: string)
    ensures forall i :: 0 <= i < |EnvsOf(s)| ==> CleanEnv(EnvsOf(s)[i])
  {
    var lines := JavaStrings.Split(s, '\n');
    forall i | 0 <= i < |lines| ensures CleanEnv(EnvsOf(s)[i]) {
      JavaStrings.TrimKeepsOut(lines[i], '\n');
    }
  }

  /** Trimming clean variables changes none of them. */
  lemma TrimAllClean(envs: seq<string>)
    requires forall i :: 0 <= i < |envs| ==> CleanEnv(envs[i])
    ensures TrimAll(envs) == envs
  {
    forall i | 0 <= i < |envs| ensures JavaStrings.Trim(envs[i]) == envs[i] {
      JavaStrings.TrimTrimmed(envs[i]);
    }
  }

  /**
   * Reading back what `convertToString` wrote gives the list again when it is not empty, its
   * variables are clean and the last one is not empty.
   */
  lemma EnvsRoundTrip(envs: seq<string>)
    requires |envs| >= 1 && envs[|envs| - 1] != ""
    requires forall i :: 0 <= i < |envs| ==> CleanEnv(envs[i])
    ensures EnvsOf(EnvsToString(envs)) == envs
  {
    JavaStrings.SplitOfTerminated(envs, '\n');
    TrimAllClean(envs);
  }

  /** The empty list does not survive: `""` splits into one empty line, so it reads back as `[""]`. */
  lemma EmptyEnvsReadBackAsOneEmpty()
    ensures EnvsToString([]) == ""
    ensures EnvsOf(EnvsToString([])) == [""]
  {
    assert JavaStrings.Trim("") == "";
  }

  /** Splitting the text written for `envs` and one empty variable drops that variable. */
  lemma SplitDropsEmptyLast(envs: seq<string>)
    requires |envs| >= 1 && envs[|envs| - 1] != ""
    requires forall i :: 0 <= i < |envs| ==> '\n' !in envs[i]
    ensures JavaStrings.Split(EnvsToString(envs + [""]), '\n') == envs
  {
    var ls := envs + ["", ""];
    JavaStrings.TerminatedAsJoin(envs + [""], '\n');
    assert (envs + [""]) + [""] == ls;
    assert forall i :: 0 <= i < |ls| ==> '\n' !in ls[i] by {
      forall i | 0 <= i < |ls| ensures '\n' !in ls[i] {
        if i < |envs| { assert ls[i] == envs[i]; }
      }
    }
    JavaStrings.PiecesOfJoin(ls, '\n');
    JavaStrings.JoinHasSeparator(ls, '\n');
    assert ls[..|ls| - 1] == envs + [""];
    JavaStrings.DropOneTrailingEmpty(envs);
  }

  /** An empty last variable is lost: `split` drops the trailing empty strings. */
  lemma TrailingEmptyEnvIsLost(envs: seq<string>)
    requires |envs| >= 1 && envs[|envs| - 1] != ""
    requires forall i :: 0 <= i < |envs| ==> CleanEnv(envs[i])
    ensures EnvsOf(EnvsToString(envs + [""])) == envs
  {
    SplitDropsEmptyLast(envs);
    TrimAllClean(envs);
  }

  // ---------------------------------------------------------------------------------------------
  // Exposed ports

  /** `com.github.dockerjava.api.model.InternetProtocol`. */
  datatype InternetProtocol = Tcp | Udp

  /** `InternetProtocol.toString`: the lower-case name. */
  function ProtocolName(p: InternetProtocol): string
  {
    match p
    case Tcp => "tcp"
    case Udp => "udp"
  }

  /** The exceptions `PortsConverter.convert` can throw. */
  datatype PortError =
    | FormatError(line: string)       // "The exposed port must be specified in this format: port/[udp|tcp]"
    | NumberFormat(input: string)     // `Integer.parseInt` rejected the port
    | IndexOutOfBounds(index: int)    // the trimmed line has fewer pieces than the untrimmed one
    | UnknownProtocol(text: string)   // `InternetProtocol.parse` rejected the protocol

  /**
   * `InternetProtocol.parse`: the constant named by the upper-cased text. Upper-casing is taken on
   * ASCII letters only; no other character upper-cases to one of the letters of `TCP` or `UDP`.
   */
  function ParseProtocol(s: string): (r: Result<InternetProtocol, PortError>)
    ensures r == Success(Tcp) <==> JavaStrings.UpperAscii(s) == "TCP"
    ensures r == Success(Udp) <==> JavaStrings.UpperAscii(s) == "UDP"
    ensures r.Failure? ==> r.error == UnknownProtocol(s)
  {
    var u := JavaStrings.UpperAscii(s);
    if u == "TCP" then Success(Tcp) else if u == "UDP" then Success(Udp) else Failure(UnknownProtocol(s))
  }

  /** The name `toString` gives a protocol parses back to it, in any mix of cases. */
  lemma ProtocolRoundTrip(p: InternetProtocol)
    ensures ParseProtocol(ProtocolName(p)) == Success(p)
    ensures ParseProtocol(JavaStrings.UpperAscii(ProtocolName(p))) == Success(p)
  {
    var u := JavaStrings.UpperAscii(ProtocolName(p));
    assert u[0] == (ProtocolName(p)[0] as int - 32) as char;
    assert u[1] == (ProtocolName(p)[1] as int - 32) as char;
    assert u[2] == (ProtocolName(p)[2] as int - 32) as char;
    if p == Tcp {
      assert u == "TCP";
    } else {
      assert u == "UDP";
    }
    assert JavaStrings.UpperAscii(u) == u;
  }

  /** `com.github.dockerjava.api.model.ExposedPort`: a port number and its protocol. */
  datatype ExposedPort = ExposedPort(port: Int, protocol: InternetProtocol)

  /**
   * One line of `PortsConverter.convert`. The number of `/`-pieces is checked on the line as it
   * is, but the port and the protocol are taken from the pieces of the trimmed line.
   */
  function ParsePortLine(line: string): (r: Result<ExposedPort, PortError>)
    ensures |JavaStrings.Split(line, '/')| != 2 ==> r == Failure(FormatError(line))
    ensures r.Success? ==>
      var parts := JavaStrings.Split(JavaStrings.Trim(line), '/');
      && |JavaStrings.Split(line, '/')| == 2 && |parts| >= 2
      && JavaStrings.ParseInt(parts[0]) == Success(r.value.port)
      && ParseProtocol(parts[1]) == Success(r.value.protocol)
    ensures |JavaStrings.Split(line, '/')| == 2 ==>
      var parts := JavaStrings.Split(JavaStrings.Trim(line), '/');
      && (r.Success? <==> |parts| >= 2 && JavaStrings.ParseInt(parts[0]).Success? && ParseProtocol(parts[1]).Success?)
      && (parts == [] ==> r == Failure(IndexOutOfBounds(0)))
      && (parts != [] && JavaStrings.ParseInt(parts[0]).Failure? ==> r == Failure(NumberFormat(parts[0])))
      && (|parts| == 1 && JavaStrings.ParseInt(parts[0]).Success? ==> r == Failure(IndexOutOfBounds(1)))
      && (|parts| >= 2 && JavaStrings.ParseInt(parts[0]).Success? && ParseProtocol(parts[1]).Failure? ==>
            r == Failure(UnknownProtocol(parts[1])))
  {
    if |JavaStrings.Split(line, '/')| != 2 then Failure(FormatError(line))
    else
      var parts := JavaStrings.Split(JavaStrings.Trim(line), '/');
      if |parts| < 1 then Failure(IndexOutOfBounds(0))
      else match JavaStrings.ParseInt(parts[0])
        case Failure(e) => Failure(NumberFormat(e.input))
        case Success(port) =>
          if |parts| < 2 then Failure(IndexOutOfBounds(1))
          else match ParseProtocol(parts[1])
            case Failure(e) => Failure(e)
            case Success(protocol) => Success(ExposedPort(port, protocol))
  }

  /** `ps` in front of the ports of `r`, or the error of `r`. */
  function Prefixed(ps: seq<ExposedPort>, r: Result<seq<ExposedPort>, PortError>): Result<seq<ExposedPort>, PortError>
  {
    match r
    case Success(qs) => Success(ps + qs)
    case Failure(e) => Failure(e)
  }

  /** The ports of a list of per-line results, or the first error among them. */
  function Collect(rs: seq<Result<ExposedPort, PortError>>): Result<seq<ExposedPort>, PortError>
  {
    if rs == [] then Success([])
    else match rs[0]
      case Failure(e) => Failure(e)
      case Success(p) => Prefixed([p], Collect(rs[1..]))
  }

  /** The result of each line, in order. */
  function LineResults(lines: seq<string>): (rs: seq<Result<ExposedPort, PortError>>)
    ensures |rs| == |lines| && forall i :: 0 <= i < |lines| ==> rs[i] == ParsePortLine(lines[i])
  {
    seq(|lines|, i requires 0 <= i < |lines| => ParsePortLine(lines[i]))
  }

  /** What `PortsConverter.convert` returns or throws: the ports of the lines of the trimmed text. */
  function PortsOf(s: string): Result<seq<ExposedPort>, PortError>
  {
    Collect(LineResults(JavaStrings.Split(JavaStrings.Trim(s), '\n')))
  }

  /**
   * Collecting per-line results gives one port per line, in the same order, when every line has
   * one; otherwise the error of the first line without one.
   */
  lemma {:induction false} CollectMeaning(rs: seq<Result<ExposedPort, PortError>>)
    ensures Collect(rs).Success? <==> forall i :: 0 <= i < |rs| ==> rs[i].Success?
    ensures Collect(rs).Success? ==>
      |Collect(rs).value| == |rs| && forall i :: 0 <= i < |rs| ==> Collect(rs).value[i] == rs[i].value
    ensures Collect(rs).Failure? ==>
      exists i :: 0 <= i < |rs| && rs[i] == Failure(Collect(rs).error) && forall j :: 0 <= j < i ==> rs[j].Success?
  {
    if rs != [] {
      var rest := rs[1..];
      CollectMeaning(rest);
      assert forall i :: 1 <= i < |rs| ==> rs[i] == rest[i - 1];
      if rs[0].Success? && Collect(rest).Failure? {
        var i :| 0 <= i < |rest| && rest[i] == Failure(Collect(rest).error) &&
          forall j :: 0 <= j < i ==> rest[j].Success?;
        assert rs[i + 1] == Failure(Collect(rs).error);
        assert forall j :: 0 <= j < i + 1 ==> rs[j].Success? by {
          forall j | 0 <= j < i + 1 ensures rs[j].Success? {
            if j > 0 { assert rs[j] == rest[j - 1]; }
          }
        }
      }
    }
  }

  /** Results that are all ports collect to those ports. */
  lemma {:induction false} CollectAllPorts(rs: seq<Result<ExposedPort, PortError>>, ps: seq<ExposedPort>)
    requires |rs| == |ps| && forall i :: 0 <= i < |rs| ==> rs[i] == Success(ps[i])
    ensures Collect(rs) == Success(ps)
  {
    if rs != [] {
      assert forall i :: 0 <= i < |rs| - 1 ==> rs[1..][i] == Success(ps[1..][i]);
      CollectAllPorts(rs[1..], ps[1..]);
      assert [ps[0]] + ps[1..] == ps;
    }
  }

  /** Collecting per-line results from the front: where the collection starts. */
  lemma CollectStart(rs: seq<Result<ExposedPort, PortError>>)
    ensures Collect(rs) == Prefixed([], Collect(rs[0..]))
  {
    assert rs[0..] == rs;
    match Collect(rs)
    case Success(qs) => assert [] + qs == qs;
    case Failure(_) =>
  }

  /** One more result: an error ends the collection with it, a port is added behind the others. */
  lemma CollectStep(rs: seq<Result<ExposedPort, PortError>>, i: int, ps: seq<ExposedPort>)
    requires 0 <= i < |rs| && Collect(rs) == Prefixed(ps, Collect(rs[i..]))
    ensures rs[i].Failure? ==> Collect(rs) == Failure(rs[i].error)
    ensures rs[i].Success? ==> Collect(rs) == Prefixed(ps + [rs[i].value], Collect(rs[i + 1..]))
  {
    var t := rs[i..];
    assert t[0] == rs[i] && t[1..] == rs[i + 1..];
    match rs[i]
    case Failure(e) =>
      assert Collect(t) == Failure(e);
    case Success(p) =>
      var rest := Collect(rs[i + 1..]);
      assert Collect(t) == Prefixed([p], rest);
      match rest
      case Success(qs) => assert ps + ([p] + qs) == (ps + [p]) + qs;
      case Failure(_) =>
  }

  /** Once every result is taken, the collection is the ports taken. */
  lemma CollectEnd(rs: seq<Result<ExposedPort, PortError>>, ps: seq<ExposedPort>)
    requires Collect(rs) == Prefixed(ps, Collect(rs[|rs|..]))
    ensures Collect(rs) == Success(ps)
  {
    assert rs[|rs|..] == [] && ps + [] == ps;
  }

  /** One line of `PortsConverter.convert`, step by step as the source evaluates it. */
  method ConvertLine(line: string) returns (r: Result<ExposedPort, PortError>)
    ensures r == ParsePortLine(line)
  {
    if |JavaStrings.Split(line, '/')| != 2 {
      return Failure(FormatError(line));
    }
    var parts := JavaStrings.Split(JavaStrings.Trim(line), '/');
    if |parts| < 1 {
      return Failure(IndexOutOfBounds(0));
    }
    var port := JavaStrings.ParseInt(parts[0]);
    if port.Failure? {
      return Failure(NumberFormat(port.error.input));
    }
    if |parts| < 2 {
      return Failure(IndexOutOfBounds(1));
    }
    var protocol := ParseProtocol(parts[1]);
    if protocol.Failure? {
      return Failure(protocol.error);
    }
    r := Success(ExposedPort(port.value, protocol.value));
  }

  /** `PortsConverter.convert`: every line of the trimmed text becomes a port; the first bad line throws. */
  method PortsConvert(s: string) returns (r: Result<seq<ExposedPort>, PortError>)
    ensures r == PortsOf(s)
  {
    var lines := JavaStrings.Split(JavaStrings.Trim(s), '\n');
    ghost var rs := LineResults(lines);
    var ports: seq<ExposedPort> := [];
    var i := 0;
    CollectStart(rs);
    while i < |lines|
      invariant 0 <= i <= |lines|
      invariant Collect(rs) == Prefixed(ports, Collect(rs[i..]))
    {
      var line := ConvertLine(lines[i]);
      assert rs[i] == line;
      CollectStep(rs, i, ports);
      if line.Failure? {
        return Failure(line.error);
      }
      ports := ports + [line.value];
      i := i + 1;
    }
    CollectEnd(rs, ports);
    r := Success(ports);
  }

  /** The line `convertToString` writes for a port, before its `'\n'`. */
  function PortLine(p: ExposedPort): string
  {
    JavaStrings.IntToString(p.port) + "/" + ProtocolName(p.protocol)
  }

  function PortLines(ps: seq<ExposedPort>): (ls: seq<string>)
    ensures |ls| == |ps| && forall i :: 0 <= i < |ps| ==> ls[i] == PortLine(ps[i])
  {
    seq(|ps|, i requires 0 <= i < |ps| => PortLine(ps[i]))
  }

  /** What `PortsConverter.convertToString` returns: each port's line followed by `'\n'`. */
  function PortsToString(ps: seq<ExposedPort>): string
  {
    JavaStrings.Terminated(PortLines(ps), '\n')
  }

  /** One more round of `convertToString`'s loop appends the port, `/`, the protocol and `'\n'`. */
  lemma PortsTextStep(ps: seq<ExposedPort>, i: int)
    requires 0 <= i < |ps|
    ensures JavaStrings.Terminated(PortLines(ps[..i + 1]), '\n') ==
      JavaStrings.Terminated(PortLines(ps[..i]), '\n') + JavaStrings.IntToString(ps[i].port) + "/" + ProtocolName(ps[i].protocol) + "\n"
  {
    var before, line := PortLines(ps[..i]), PortLine(ps[i]);
    assert PortLines(ps[..i + 1]) == before + [line] by {
      forall k | 0 <= k < i + 1 ensures PortLines(ps[..i + 1])[k] == (before + [line])[k] {
        assert ps[..i + 1][k] == if k < i then ps[..i][k] else ps[i];
      }
    }
    JavaStrings.TerminatedAppend(before, line, '\n');
    var t := JavaStrings.Terminated(before, '\n');
    var a, b := JavaStrings.IntToString(ps[i].port), ProtocolName(ps[i].protocol);
    assert line == a + "/" + b;
    assert t + (a + "/" + b) == t + a + "/" + b;
  }

  /** `PortsConverter.convertToString`: appends port, `/`, protocol and `'\n'` for each port. */
  method PortsConvertToString(ps: seq<ExposedPort>) returns (s: string)
    ensures s == PortsToString(ps)
  {
    s := "";
    var i := 0;
    while i < |ps|
      invariant 0 <= i <= |ps|
      invariant s == JavaStrings.Terminated(PortLines(ps[..i]), '\n')
    {
      PortsTextStep(ps, i);
      s := s + JavaStrings.IntToString(ps[i].port) + "/" + ProtocolName(ps[i].protocol) + "\n";
      i := i + 1;
    }
    assert ps[..i] == ps;
  }

  /** A decimal number holds nothing but digits and a minus sign. */
  lemma DecimalLacks(n: int, c: char)
    requires !JavaStrings.IsDigit(c) && c != '-'
    ensures c !in JavaStrings.IntToString(n)
  {
    JavaStrings.IntToStringShape(n);
  }

  /** `a`, the separator and `b` split back into `a` and `b`. */
  lemma SplitPair(a: string, b: string, sep: char)
    requires sep !in a && sep !in b && b != ""
    ensures JavaStrings.Split(a + [sep] + b, sep) == [a, b]
  {
    assert JavaStrings.Join([b], sep) == b;
    JavaStrings.JoinCons(a, [b], sep);
    assert [a] + [b] == [a, b];
    JavaStrings.SplitOfJoin([a, b], sep);
  }

  /** A port's line is trimmed and holds no line break. */
  lemma PortLineIsClean(p: ExposedPort)
    ensures CleanEnv(PortLine(p))
  {
    var a := JavaStrings.IntToString(p.port);
    var line := PortLine(p);
    JavaStrings.IntToStringShape(p.port);
    DecimalLacks(p.port, '\n');
    assert line[0] == a[0] && line[|line| - 1] == 'p';
  }

  /** Each line `convertToString` writes parses back to its port. */
  lemma PortLineRoundTrip(p: ExposedPort)
    ensures ParsePortLine(PortLine(p)) == Success(p)
  {
    var a, b := JavaStrings.IntToString(p.port), ProtocolName(p.protocol);
    var line := PortLine(p);
    DecimalLacks(p.port, '/');
    SplitPair(a, b, '/');
    PortLineIsClean(p);
    JavaStrings.TrimTrimmed(line);
    JavaStrings.ParseIntToString(p.port);
    ProtocolRoundTrip(p.protocol);
  }

  /** The lines `convertToString` writes hold no line break; the first and the last are trimmed. */
  lemma PortLinesAreClean(ps: seq<ExposedPort>)
    requires ps != []
    ensures var ls := PortLines(ps);
      && (forall i :: 0 <= i < |ls| ==> '\n' !in ls[i])
      && ls[0] != [] && JavaStrings.IsTrimmed(ls[0])
      && ls[|ls| - 1] != [] && JavaStrings.IsTrimmed(ls[|ls| - 1])
  {
    var ls := PortLines(ps);
    forall i | 0 <= i < |ls| ensures ls[i] != [] && CleanEnv(ls[i]) {
      PortLineIsClean(ps[i]);
    }
  }

  /** The text `convertToString` writes for a non-empty list, trimmed and split, is its lines again. */
  lemma PortsTextLines(ps: seq<ExposedPort>)
    requires ps != []
    ensures JavaStrings.Split(JavaStrings.Trim(PortsToString(ps)), '\n') == PortLines(ps)
  {
    var ls := PortLines(ps);
    PortLinesAreClean(ps);
    var j := JavaStrings.Join(ls, '\n');
    JavaStrings.TerminatedAsJoin(ls, '\n');
    JavaStrings.JoinTrimmed(ls, '\n');
    assert JavaStrings.AllTrimmable("\n");
    JavaStrings.TrimPadded(j, "\n");
    JavaStrings.SplitOfJoin(ls, '\n');
  }

  /** The lines `convertToString` writes give back the ports, one per line. */
  lemma CollectPortLines(ps: seq<ExposedPort>)
    ensures Collect(LineResults(PortLines(ps))) == Success(ps)
  {
    var rs := LineResults(PortLines(ps));
    forall i | 0 <= i < |ps| ensures rs[i] == Success(ps[i]) {
      PortLineRoundTrip(ps[i]);
    }
    CollectAllPorts(rs, ps);
  }

  /** Reading back what `convertToString` wrote for a non-empty list gives the same ports. */
  lemma PortsRoundTrip(ps: seq<ExposedPort>)
    requires ps != []
    ensures PortsOf(PortsToString(ps)) == Success(ps)
  {
    PortsTextLines(ps);
    CollectPortLines(ps);
  }

  /** `a/` splits into just `a` when `a` is not empty: the empty piece after the separator is dropped. */
  lemma SplitDropsEmptyAfter(a: string, sep: char)
    requires a != "" && sep !in a
    ensures JavaStrings.Split(a + [sep], sep) == [a]
  {
    JavaStrings.PiecesAfterElement(a, sep, "");
    assert a + [sep] + "" == a + [sep];
    assert (a + [sep])[|a|] == sep;
    assert [a] + [""] == [a, ""];
    JavaStrings.DropOneTrailingEmpty([a]);
  }

  /**
   * The `/`-pieces are counted on the line as it is but taken from the trimmed line: a port
   * followed by `/` and blanks passes the count, then finds no protocol piece.
   */
  lemma BlankProtocolIsOutOfBounds(a: string, pad: string)
    requires a != [] && '/' !in a && JavaStrings.IsTrimmed(a) && JavaStrings.ParseInt(a).Success?
    requires pad != [] && JavaStrings.AllTrimmable(pad)
    ensures ParsePortLine(a + "/" + pad) == Failure(IndexOutOfBounds(1))
  {
    assert '/' !in pad by {
      forall i | 0 <= i < |pad| ensures pad[i] != '/' { assert JavaStrings.IsTrimmable(pad[i]); }
    }
    SplitPair(a, pad, '/');
    var x := a + "/";
    assert x[0] == a[0] && x[|x| - 1] == '/';
    JavaStrings.TrimPadded(x, pad);
    SplitDropsEmptyAfter(a, '/');
  }

  /** A `/` after the protocol is accepted: it only adds an empty piece, which `split` drops. */
  lemma TrailingSlashIsAccepted(p: ExposedPort)
    ensures ParsePortLine(PortLine(p) + "/") == Success(p)
  {
    var a, b := JavaStrings.IntToString(p.port), ProtocolName(p.protocol);
    var line := PortLine(p) + "/";
    DecimalLacks(p.port, '/');
    assert line == a + ['/'] + (b + ['/']);
    JavaStrings.PiecesAfterElement(a, '/', b + ['/']);
    JavaStrings.PiecesAfterElement(b, '/', "");
    assert b + ['/'] + "" == b + ['/'];
    assert JavaStrings.Pieces(line, '/') == [a, b] + [""];
    JavaStrings.DropOneTrailingEmpty([a, b]);
    assert line[|a|] == '/';
    assert JavaStrings.Split(line, '/') == [a, b];
    JavaStrings.IntToStringShape(p.port);
    assert line[0] == a[0] && line[|line| - 1] == '/';
    JavaStrings.TrimTrimmed(line);
    JavaStrings.ParseIntToString(p.port);
    ProtocolRoundTrip(p.protocol);
  }

  /** The empty list does not survive: `""` is one empty line, which has no `/`. */
  lemma EmptyPortsDoNotRoundTrip()
    ensures PortsToString([]) == ""
    ensures PortsOf(PortsToString([])) == Failure(FormatError(""))
  {
    assert JavaStrings.Trim("") == "";
    assert JavaStrings.Split("", '\n') == [""];
    assert JavaStrings.Split("", '/') == [""];
  }

  // ---------------------------------------------------------------------------------------------
  // Lifecycle

  /** The commands the service sends to the Docker daemon. */
  datatype Command = StartContainer(id: string) | StopContainer(id: string)

  /** A Docker service whose container `init` has created with the id `dockerContainerId`. */
  class DockerService {
    const dockerContainerId: string
    var started: bool
    /** The commands sent to the daemon so far, in order. */
    var commands: seq<Command>

    /** `started` is `false` until `start` is called. */
    constructor (dockerContainerId: string)
      ensures this.dockerContainerId == dockerContainerId && !started && commands == []
    {
      this.dockerContainerId := dockerContainerId;
      started := false;
      commands := [];
    }

    /** `start`: starts the container, then records that it runs. */
    method Start()
      modifies this`started, this`commands
      ensures started && commands == old(commands) + [StartContainer(dockerContainerId)]
    {
      commands := commands + [StartContainer(dockerContainerId)];
      started := true;
    }

    /** `stop`: stops the container, then records that it no longer runs. */
    method Stop()
      modifies this`started, this`commands
      ensures !started && commands == old(commands) + [StopContainer(dockerContainerId)]
    {
      commands := commands + [StopContainer(dockerContainerId)];
      started := false;
    }

    /** `isRunning`: whether `start` was called more recently than `stop`. */
    function IsRunning(): (r: bool)
      reads this
      ensures r == started
    {
      started
    }
  }

  /** Not running when created, running after `start`, not running after `stop`. */
  method LifecycleExample(id: string) returns (initially: bool, afterStart: bool, afterStop: bool)
    ensures !initially && afterStart && !afterStop
  {
    var service := new DockerService(id);
    initially := service.IsRunning();
    service.Start();
    afterStart := service.IsRunning();
    service.Stop();
    afterStop := service.IsRunning();
  }
}
