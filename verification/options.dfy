/**
 * The option loop of main.c (lines 28-93): it starts from zeroed hints with
 * family AF_UNSPEC and a NULL service, and folds each option into them.
 * `Step`, `Fold` and `Parse` are the specification; `BuildRequest` is the loop
 * that updates the record field by field. `Last` and `FlagsNamed` are
 * independent readings ("the last recognised occurrence wins", "the bits of
 * all recognised names") that the lemmas prove the loop agrees with.
 */
module Options {
  import opened Results
  import opened Text
  import opened Tables
  import opened Netdb

  /** The fields of `struct addrinfo` the program sets; every other field stays zero. */
  datatype Hints = Hints(family: int, socktype: int, protocol: int, flags: bv32)

  /** One option as getopt delivers it: the option character and its argument, "" when it has none. */
  datatype OptToken = OptToken(ch: char, arg: string)

  /** What the loop has built so far: the hints and the service string (None for NULL). */
  datatype Request = Request(hints: Hints, service: Option<string>)

  datatype UsageError = BadOption(ch: char) | MissingHost

  /** The arguments of the one `getaddrinfo` call. */
  datatype Invocation = Invocation(host: string, service: Option<string>, hints: Hints)

  /** The option characters of the getopt string "46f:t:p:P:". */
  predicate IsOptionChar(c: char)
  {
    c in "46ftpP"
  }

  /** `memset(&hint, 0, ...)`, `ai_family = AF_UNSPEC`, `service = NULL`. */
  const Initial: Request := Request(Hints(AF_UNSPEC, 0, 0, 0), None)

  /** One turn of the `switch (opt)`. */
  function Step(r: Request, o: OptToken): (res: Result<Request, UsageError>)
    ensures res.Err? <==> !IsOptionChar(o.ch)
    ensures res.Err? ==> res.error == BadOption(o.ch)
  {
    match o.ch
    case '4' => Ok(r.(hints := r.hints.(family := AF_INET)))
    case '6' => Ok(r.(hints := r.hints.(family := AF_INET6)))
    case 'f' => Ok(r.(hints := r.hints.(flags := OrEach(FlagTable, o.arg, r.hints.flags))))
    case 't' => Ok(r.(hints := r.hints.(socktype := Overwrite(TypeTable, o.arg, r.hints.socktype))))
    case 'P' => Ok(r.(hints := r.hints.(protocol := Overwrite(ProtoTable, o.arg, r.hints.protocol))))
    case 'p' => Ok(r.(service := Some(o.arg)))
    case _ => Err(BadOption(o.ch))
  }

  /** The whole loop: options in order, leaving at the first bad one. */
  function Fold(r: Request, opts: seq<OptToken>): (res: Result<Request, UsageError>)
    ensures res.Err? ==> res.error.BadOption? && !IsOptionChar(res.error.ch)
    decreases |opts|
  {
    if opts == [] then Ok(r)
    else match Step(r, opts[0])
      case Err(e) => Err(e)
      case Ok(r') => Fold(r', opts[1..])
  }

  /** The loop, then the check that a host name follows the options. */
  function Parse(opts: seq<OptToken>, operands: seq<string>): (res: Result<Invocation, UsageError>)
    ensures |operands| == 0 ==> res.Err?
    ensures res.Ok? ==> |operands| > 0 && res.value.host == operands[0]
  {
    match Fold(Initial, opts)
    case Err(e) => Err(e)
    case Ok(r) => if |operands| == 0 then Err(MissingHost) else Ok(Invocation(operands[0], r.service, r.hints))
  }

  /** main.c:28-93 as written: a loop that updates the hints field by field. */
  method BuildRequest(opts: seq<OptToken>, operands: seq<string>) returns (res: Result<Invocation, UsageError>)
    ensures res == Parse(opts, operands)
  {
    var hint := Hints(AF_UNSPEC, 0, 0, 0);
    var service: Option<string> := None;
    var i := 0;
    while i < |opts|
      invariant 0 <= i <= |opts|
      invariant Fold(Initial, opts) == Fold(Request(hint, service), opts[i..])
    {
      var o := opts[i];
      assert opts[i..][1..] == opts[i + 1..];
      match o.ch {
        case '4' =>
          hint := hint.(family := AF_INET);
        case '6' =>
          hint := hint.(family := AF_INET6);
        case 'f' =>
          hint := hint.(flags := OrEach(FlagTable, o.arg, hint.flags));
        case 't' =>
          hint := hint.(socktype := Overwrite(TypeTable, o.arg, hint.socktype));
        case 'P' =>
          hint := hint.(protocol := Overwrite(ProtoTable, o.arg, hint.protocol));
        case 'p' =>
          service := Some(o.arg);
        case _ =>
          return Err(BadOption(o.ch));
      }
      i := i + 1;
    }
    if |operands| == 0 {
      return Err(MissingHost);
    }
    res := Ok(Invocation(operands[0], service, hint));
  }

  // ---- reference readings -------------------------------------------------

  function FamilyOf(o: OptToken): Option<int>
  {
    if o.ch == '4' then Some(AF_INET) else if o.ch == '6' then Some(AF_INET6) else None
  }

  function SockTypeOf(o: OptToken): Option<int>
  {
    if o.ch == 't' then Lookup(TypeTable, o.arg) else None
  }

  function ProtocolOf(o: OptToken): Option<int>
  {
    if o.ch == 'P' then Lookup(ProtoTable, o.arg) else None
  }

  function ServiceOf(o: OptToken): Option<Option<string>>
  {
    if o.ch == 'p' then Some(Some(o.arg)) else None
  }

  /** The flag bit an option names, 0 when it names none. */
  function FlagOf(o: OptToken): bv32
  {
    if o.ch == 'f' then Lookup(FlagTable, o.arg).GetOr(0) else 0
  }

  /** The value the last option that `pick` recognises gives, `d` when none does. */
  function Last<V>(opts: seq<OptToken>, pick: OptToken -> Option<V>, d: V): V
  {
    if opts == [] then d
    else match pick(opts[|opts| - 1])
      case Some(v) => v
      case None => Last(opts[..|opts| - 1], pick, d)
  }

  /** The bits of every recognised `-f` name in the list. */
  function FlagsNamed(opts: seq<OptToken>): bv32
  {
    if opts == [] then 0 else FlagsNamed(opts[..|opts| - 1]) | FlagOf(opts[|opts| - 1])
  }

  // ---- properties ---------------------------------------------------------

  /**
   * Each option changes only its own field: `-4`/`-6` the family, `-f` ORs in
   * the named bit, `-t`/`-P` set the named value, `-p` the service. A name no
   * table knows leaves its field exactly as it was.
   */
  lemma StepChangesOwnField(r: Request, o: OptToken)
    requires IsOptionChar(o.ch)
    ensures Step(r, o) == Ok(Request(
      Hints(FamilyOf(o).GetOr(r.hints.family),
            SockTypeOf(o).GetOr(r.hints.socktype),
            ProtocolOf(o).GetOr(r.hints.protocol),
            r.hints.flags | FlagOf(o)),
      ServiceOf(o).GetOr(r.service)))
  {
    match o.ch
    case 'f' => FlagStep(r, o.arg);
    case 't' => SockTypeStep(r, o.arg);
    case 'P' => ProtocolStep(r, o.arg);
    case _ =>
  }

  lemma FlagStep(r: Request, arg: string)
    ensures Step(r, OptToken('f', arg)) == Ok(r.(hints := r.hints.(flags := r.hints.flags | Lookup(FlagTable, arg).GetOr(0))))
  {
    FlagTableWellFormed();
    OrEachIsLookup(FlagTable, arg, r.hints.flags);
  }

  lemma SockTypeStep(r: Request, arg: string)
    ensures Step(r, OptToken('t', arg)) == Ok(r.(hints := r.hints.(socktype := Lookup(TypeTable, arg).GetOr(r.hints.socktype))))
  {
    TypeTableWellFormed();
    OverwriteIsLookup(TypeTable, arg, r.hints.socktype);
  }

  lemma ProtocolStep(r: Request, arg: string)
    ensures Step(r, OptToken('P', arg)) == Ok(r.(hints := r.hints.(protocol := Lookup(ProtoTable, arg).GetOr(r.hints.protocol))))
  {
    ProtoTableWellFormed();
    OverwriteIsLookup(ProtoTable, arg, r.hints.protocol);
  }

  /** `-t`, `-P` or `-f` with an unknown name changes nothing at all. */
  lemma UnknownNameChangesNothing(r: Request, o: OptToken)
    requires o.ch == 't' || o.ch == 'P' || o.ch == 'f'
    requires o.ch == 't' ==> Lookup(TypeTable, o.arg) == None
    requires o.ch == 'P' ==> Lookup(ProtoTable, o.arg) == None
    requires o.ch == 'f' ==> Lookup(FlagTable, o.arg) == None
    ensures Step(r, o) == Ok(r)
  {
    StepChangesOwnField(r, o);
  }

  /** Table names are matched ignoring case: any spelling of a name acts as the name itself. */
  lemma StepIgnoresCase(r: Request, ch: char, a: string, b: string)
    requires ch != 'p'
    requires StrCaseEq(a, b)
    ensures Step(r, OptToken(ch, a)) == Step(r, OptToken(ch, b))
  {
    match ch
    case 'f' => OrEachIgnoresCase(FlagTable, a, b, r.hints.flags);
    case 't' => OverwriteIgnoresCase(TypeTable, a, b, r.hints.socktype);
    case 'P' => OverwriteIgnoresCase(ProtoTable, a, b, r.hints.protocol);
    case _ =>
  }

  lemma {:induction false} FoldSnoc(r: Request, opts: seq<OptToken>, o: OptToken)
    ensures Fold(r, opts + [o]) == match Fold(r, opts) case Err(e) => Err(e) case Ok(q) => Step(q, o)
    decreases |opts|
  {
    if opts == [] {
      assert [o][1..] == [];
    } else {
      assert (opts + [o])[1..] == opts[1..] + [o];
      match Step(r, opts[0])
      case Err(e) =>
      case Ok(r') => FoldSnoc(r', opts[1..], o);
    }
  }

  /**
   * What the loop builds: for family, type, protocol and service the last
   * recognised option wins over the starting value, and the flags are the
   * starting flags with the bits of all recognised `-f` names ORed in.
   */
  lemma {:induction false} FoldIsLastWins(r: Request, opts: seq<OptToken>)
    requires Fold(r, opts).Ok?
    ensures Fold(r, opts).value == Request(
      Hints(Last(opts, FamilyOf, r.hints.family),
            Last(opts, SockTypeOf, r.hints.socktype),
            Last(opts, ProtocolOf, r.hints.protocol),
            r.hints.flags | FlagsNamed(opts)),
      Last(opts, ServiceOf, r.service))
  {
    if opts != [] {
      var init, o := opts[..|opts| - 1], opts[|opts| - 1];
      assert init + [o] == opts;
      FoldSnoc(r, init, o);
      assert Fold(r, init).Ok?;
      FoldIsLastWins(r, init);
      var q := Fold(r, init).value;
      assert Step(q, o).Ok?;
      StepChangesOwnField(q, o);
    }
  }

  /** The loop fails exactly at the first option character outside the getopt string. */
  lemma {:induction false} FoldStopsAtFirstBadOption(r: Request, opts: seq<OptToken>, k: nat)
    requires k < |opts| && !IsOptionChar(opts[k].ch)
    requires forall i :: 0 <= i < k ==> IsOptionChar(opts[i].ch)
    ensures Fold(r, opts) == Err(BadOption(opts[k].ch))
    decreases k
  {
    if k > 0 {
      FoldStopsAtFirstBadOption(Step(r, opts[0]).value, opts[1..], k - 1);
    }
  }

  /** The loop fails if and only if some option character is outside the getopt string. */
  lemma {:induction false} FoldFailsIff(r: Request, opts: seq<OptToken>)
    ensures Fold(r, opts).Err? <==> exists i :: 0 <= i < |opts| && !IsOptionChar(opts[i].ch)
    decreases |opts|
  {
    if opts != [] && IsOptionChar(opts[0].ch) {
      FoldFailsIff(Step(r, opts[0]).value, opts[1..]);
      if exists i :: 0 <= i < |opts| && !IsOptionChar(opts[i].ch) {
        var i :| 0 <= i < |opts| && !IsOptionChar(opts[i].ch);
        assert opts[1..][i - 1] == opts[i];
      }
    }
  }

  /** A usage error happens exactly for an unknown option or a missing host name. */
  lemma ParseFailsIff(opts: seq<OptToken>, operands: seq<string>)
    ensures Parse(opts, operands).Err? <==>
      (exists i :: 0 <= i < |opts| && !IsOptionChar(opts[i].ch)) || |operands| == 0
  {
    FoldFailsIff(Initial, opts);
  }

  /**
   * A successful parse: the host is the first operand (later ones are ignored);
   * family, type, protocol and service come from their last recognised option,
   * else AF_UNSPEC, 0, 0 and NULL; the flags are the bits of all recognised names.
   */
  lemma ParseResult(opts: seq<OptToken>, operands: seq<string>)
    requires Parse(opts, operands).Ok?
    ensures Parse(opts, operands).value == Invocation(
      operands[0],
      Last(opts, ServiceOf, None),
      Hints(Last(opts, FamilyOf, AF_UNSPEC),
            Last(opts, SockTypeOf, 0),
            Last(opts, ProtocolOf, 0),
            FlagsNamed(opts)))
  {
    FoldIsLastWins(Initial, opts);
  }

  /** Once a recognised `-f` name has set its bit, no later option clears it. */
  lemma {:induction false} FlagsAccumulate(opts: seq<OptToken>, k: nat)
    requires k < |opts| && opts[k].ch == 'f'
    ensures FlagsNamed(opts) & FlagOf(opts[k]) == FlagOf(opts[k])
  {
    var init := opts[..|opts| - 1];
    if k < |opts| - 1 {
      assert init[k] == opts[k];
      FlagsAccumulate(init, k);
    }
  }

  /** `-f PASSIVE -f CANONNAME`, in any casing: both bits are added and no other. */
  lemma PassiveThenCanonname(r: Request, n1: string, n2: string)
    requires StrCaseEq(n1, "PASSIVE") && StrCaseEq(n2, "CANONNAME")
    ensures Fold(r, [OptToken('f', n1), OptToken('f', n2)]).Ok?
    ensures Fold(r, [OptToken('f', n1), OptToken('f', n2)]).value.hints.flags
            == r.hints.flags | AI_PASSIVE | AI_CANONNAME
  {
    var a, b := OptToken('f', n1), OptToken('f', n2);
    FlagTableWellFormed();
    NameValueName(FlagTable, n1, 6);
    NameValueName(FlagTable, n2, 3);
    FlagStep(r, n1);
    var r1 := Step(r, a).value;
    FlagStep(r1, n2);
    var r2 := Step(r1, b).value;
    assert Fold(r1, [b]) == Ok(r2) by {
      assert [b][1..] == [];
    }
    assert Fold(r, [a, b]) == Fold(r1, [b]) by {
      assert [a, b][1..] == [b];
    }
  }
}
