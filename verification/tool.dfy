/**
 * The whole of `main`: build the request from the options, call the resolver
 * once, and report. The resolver (`getaddrinfo`, with `gai_strerror` for its
 * error text) is a parameter: a function from the call's arguments to either
 * the result list or the error message.
 */
module Tool {
  import opened Results
  import Netdb
  import opened Options
  import opened Report

  const EXIT_SUCCESS: int := 0
  const EXIT_FAILURE: int := 1

  /** Both output streams and the exit status of one run. */
  datatype Outcome = Outcome(stdout: string, stderr: string, status: int)

  /** The usage text, with the program name in place of `%s`. */
  function Usage(prog: string): (s: string)
    ensures |s| > 7 + |prog| && s[..7] == "Usage: " && s[7..7 + |prog|] == prog
    ensures s[|s| - 1] == '\n'
  {
    "Usage: " + prog + " [OPTIONS] <hostname>\n"
    + "   -4                 IPv4 results only\n"
    + "   -6                 IPv6 results only\n"
    + "   -f <ai_flags>      can be used multiple times\n"
    + "   -t <ai_socktype>\n"
    + "   -p <port>          port or service name\n"
    + "   -P <ai_protocol>\n"
  }

  type Resolver = Invocation -> Result<seq<Candidate>, string>

  function Run(prog: string, opts: seq<OptToken>, operands: seq<string>, resolve: Resolver): (o: Outcome)
    ensures o.status == EXIT_SUCCESS <==>
      Parse(opts, operands).Ok? && resolve(Parse(opts, operands).value).Ok?
    ensures o.status == EXIT_SUCCESS || o.status == EXIT_FAILURE
  {
    match Parse(opts, operands)
    case Err(_) => Outcome(Usage(prog), "", EXIT_FAILURE)
    case Ok(call) =>
      match resolve(call)
      case Err(msg) => Outcome("", msg + "\n", EXIT_FAILURE)
      case Ok(cs) => Outcome(Stdout(cs), Stderr(cs), EXIT_SUCCESS)
  }

  /**
   * A usage error prints the usage text to stdout and fails before the
   * resolver is reached: the outcome is the same whatever the resolver would do.
   */
  lemma UsageErrorSkipsResolver(prog: string, opts: seq<OptToken>, operands: seq<string>, r1: Resolver, r2: Resolver)
    requires (exists i :: 0 <= i < |opts| && !IsOptionChar(opts[i].ch)) || |operands| == 0
    ensures Run(prog, opts, operands, r1) == Run(prog, opts, operands, r2)
    ensures Run(prog, opts, operands, r1) == Outcome(Usage(prog), "", EXIT_FAILURE)
  {
    ParseFailsIff(opts, operands);
  }

  /**
   * With valid options and a host, the resolver is called once with the first
   * operand, the last `-p` service (else NULL) and hints whose family, type and
   * protocol come from the last recognised option and whose flags are the bits
   * of all recognised `-f` names; its failure prints its message to stderr and
   * nothing to stdout, and its success prints the report, exiting 0 even for
   * an empty list.
   */
  lemma RunCallsResolverOnce(prog: string, opts: seq<OptToken>, operands: seq<string>, resolve: Resolver)
    requires forall i :: 0 <= i < |opts| ==> IsOptionChar(opts[i].ch)
    requires |operands| > 0
    ensures var call := Invocation(operands[0], Last(opts, ServiceOf, None),
                                   Hints(Last(opts, FamilyOf, Netdb.AF_UNSPEC), Last(opts, SockTypeOf, 0),
                                         Last(opts, ProtocolOf, 0), FlagsNamed(opts)));
      Run(prog, opts, operands, resolve) ==
        match resolve(call)
        case Err(msg) => Outcome("", msg + "\n", EXIT_FAILURE)
        case Ok(cs) => Outcome(Stdout(cs), Stderr(cs), EXIT_SUCCESS)
  {
    ParseFailsIff(opts, operands);
    ParseResult(opts, operands);
  }
}
