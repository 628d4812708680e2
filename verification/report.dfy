/**
 * The walk over the resolver's result list (main.c lines 102-156). For every
 * candidate, in list order, stdout receives the socket type and the protocol,
 * each followed by a tab; then, for AF_INET and AF_INET6, the port, a tab, the
 * address and a newline. For any other family stderr receives one diagnostic
 * naming the raw family, and the walk goes on; what was already written to
 * stdout for that candidate stays there, with no newline after it.
 */
module Report {
  import opened Results
  import opened Text
  import opened Tables
  import opened Netdb
  import opened Options

  /** A port in host byte order, as `%hu` prints it. */
  type Port = n: int | 0 <= n < 0x1_0000

  /**
   * One entry of the result list as far as the walk reads it: `ai_socktype`,
   * `ai_protocol`, `ai_addr->sa_family`, the port after `ntohs`, and the address
   * text `inet_ntop` writes.
   */
  datatype Candidate = Candidate(socktype: int, protocol: int, family: int, port: Port, address: string)

  /** What one candidate adds to stdout and to stderr. */
  datatype Emission = Emission(out: string, err: string)

  /** The `switch (next->ai_socktype)`: a name for the four known types, else the decimal number. */
  function TypeField(v: int): (s: string)
    ensures |s| > 0 && '\t' !in s && '\n' !in s
  {
    TypeTableWellFormed();
    FieldHasNoTab(TypeTable, v);
    Field(TypeTable, v)
  }

  /** The `switch (next->ai_protocol)`: a name for the six known protocols, else the decimal number. */
  function ProtoField(v: int): (s: string)
    ensures |s| > 0 && '\t' !in s && '\n' !in s
  {
    ProtoTableWellFormed();
    FieldHasNoTab(ProtoTable, v);
    Field(ProtoTable, v)
  }

  predicate IsInetFamily(f: int)
  {
    f == AF_INET || f == AF_INET6
  }

  /** One pass of the loop body. */
  function Render(c: Candidate): (e: Emission)
    ensures e.err == "" <==> IsInetFamily(c.family)
    ensures IsInetFamily(c.family) ==> |e.out| > 0 && e.out[|e.out| - 1] == '\n'
    ensures !IsInetFamily(c.family) ==> |e.err| > 0 && e.err[|e.err| - 1] == '\n' && '\n' !in e.out
  {
    var head := TypeField(c.socktype) + "\t" + ProtoField(c.protocol) + "\t";
    if IsInetFamily(c.family) then
      Emission(head + Decimal(c.port) + "\t" + c.address + "\n", "")
    else
      Emission(head, "Unknown address family " + Decimal(c.family) + "\n")
  }

  /** What each candidate of the list prints, in list order. */
  function Emissions(cs: seq<Candidate>): (es: seq<Emission>)
    ensures |es| == |cs|
  {
    seq(|cs|, i requires 0 <= i < |cs| => Render(cs[i]))
  }

  /** The stdout text of a series of emissions, one after the other. */
  function AllOut(es: seq<Emission>): string
  {
    if es == [] then "" else AllOut(es[..|es| - 1]) + es[|es| - 1].out
  }

  /** The stderr text of a series of emissions, one after the other. */
  function AllErr(es: seq<Emission>): string
  {
    if es == [] then "" else AllErr(es[..|es| - 1]) + es[|es| - 1].err
  }

  /** Everything the walk writes to stdout. */
  function Stdout(cs: seq<Candidate>): string
  {
    AllOut(Emissions(cs))
  }

  /** Everything the walk writes to stderr. */
  function Stderr(cs: seq<Candidate>): string
  {
    AllErr(Emissions(cs))
  }

  /** main.c:102-156: follow the list and append what each candidate prints, in order. */
  method PrintResults(cs: seq<Candidate>) returns (out: string, err: string)
    ensures out == Stdout(cs) && err == Stderr(cs)
  {
    out, err := "", "";
    var i := 0;
    while i < |cs|
      invariant 0 <= i <= |cs|
      invariant out == Stdout(cs[..i]) && err == Stderr(cs[..i])
    {
      var next := cs[i];
      var e := Render(next);
      out := out + e.out;
      err := err + e.err;
      assert cs[..i + 1] == cs[..i] + [next];
      WalkSnoc(cs[..i], next);
      i := i + 1;
    }
    assert cs[..|cs|] == cs;
  }

  // ---- the two switches ---------------------------------------------------

  /** The socket-type column: the four names of the `switch`, the decimal number otherwise. */
  lemma TypeFieldCases(v: int)
    ensures v == SOCK_STREAM ==> TypeField(v) == "STREAM"
    ensures v == SOCK_DGRAM ==> TypeField(v) == "DGRAM"
    ensures v == SOCK_RAW ==> TypeField(v) == "RAW"
    ensures v == SOCK_SEQPACKET ==> TypeField(v) == "SEQPACKET"
    ensures v !in {SOCK_STREAM, SOCK_DGRAM, SOCK_RAW, SOCK_SEQPACKET} ==> TypeField(v) == Decimal(v)
  {
    TypeTableWellFormed();
    if v in {SOCK_STREAM, SOCK_DGRAM, SOCK_RAW, SOCK_SEQPACKET} {
      var i := if v == SOCK_STREAM then 0 else if v == SOCK_DGRAM then 1 else if v == SOCK_RAW then 2 else 3;
      FieldOfEntry(TypeTable, i);
    } else {
      FieldOfOther(TypeTable, v);
    }
  }

  /** The protocol column: the six names of the `switch`, the decimal number otherwise. */
  lemma ProtoFieldCases(v: int)
    ensures v == IPPROTO_IP ==> ProtoField(v) == "IP"
    ensures v == IPPROTO_IPV6 ==> ProtoField(v) == "IPV6"
    ensures v == IPPROTO_TCP ==> ProtoField(v) == "TCP"
    ensures v == IPPROTO_UDP ==> ProtoField(v) == "UDP"
    ensures v == IPPROTO_ICMP ==> ProtoField(v) == "ICMP"
    ensures v == IPPROTO_RAW ==> ProtoField(v) == "RAW"
    ensures v !in {IPPROTO_IP, IPPROTO_IPV6, IPPROTO_TCP, IPPROTO_UDP, IPPROTO_ICMP, IPPROTO_RAW} ==>
      ProtoField(v) == Decimal(v)
  {
    ProtoTableWellFormed();
    if v in {IPPROTO_IP, IPPROTO_IPV6, IPPROTO_TCP, IPPROTO_UDP, IPPROTO_ICMP, IPPROTO_RAW} {
      var i :=
        if v == IPPROTO_IP then 0 else if v == IPPROTO_IPV6 then 1 else if v == IPPROTO_ICMP then 2
        else if v == IPPROTO_TCP then 3 else if v == IPPROTO_UDP then 4 else 5;
      FieldOfEntry(ProtoTable, i);
    } else {
      FieldOfOther(ProtoTable, v);
    }
  }

  /**
   * Round trip through both halves of the type table: the value `-t NAME` sets,
   * for any casing of a known NAME, is printed as the upper-case NAME.
   */
  lemma TypeOptionRoundTrip(r: Request, name: string, i: nat)
    requires i < |TypeTable| && StrCaseEq(name, TypeTable[i].name)
    ensures Step(r, OptToken('t', name)).Ok?
    ensures TypeField(Step(r, OptToken('t', name)).value.hints.socktype) == TypeTable[i].name
  {
    TypeTableWellFormed();
    NameValueName(TypeTable, name, i);
    StepChangesOwnField(r, OptToken('t', name));
  }

  /** The same round trip for `-P NAME` and the protocol column. */
  lemma ProtoOptionRoundTrip(r: Request, name: string, i: nat)
    requires i < |ProtoTable| && StrCaseEq(name, ProtoTable[i].name)
    ensures Step(r, OptToken('P', name)).Ok?
    ensures ProtoField(Step(r, OptToken('P', name)).value.hints.protocol) == ProtoTable[i].name
  {
    ProtoTableWellFormed();
    NameValueName(ProtoTable, name, i);
    StepChangesOwnField(r, OptToken('P', name));
  }

  // ---- reading a line back --------------------------------------------------

  /** The data one stdout line carries. */
  datatype Reading = Reading(socktype: int, protocol: int, port: int, address: string)

  /** Reads one newline-terminated line of exactly four tab-separated fields. */
  function ReadLine(line: string): Option<Reading>
  {
    if |line| == 0 || line[|line| - 1] != '\n' then None
    else
      var fs := Split(line[..|line| - 1], '\t');
      if |fs| != 4 then None
      else Some(Reading(ReadField(TypeTable, fs[0]), ReadField(ProtoTable, fs[1]), DecimalValue(fs[2]), fs[3]))
  }

  lemma FieldHasNoTab(t: seq<Entry<int>>, v: int)
    requires WellFormed(t)
    ensures '\t' !in Field(t, v) && '\n' !in Field(t, v)
  {
    FieldChars(t, v);
  }

  /**
   * An AF_INET or AF_INET6 candidate gives one stdout line, no stderr text,
   * and the line reads back to the candidate's type, protocol, port and address
   * (for address text without tabs or newlines, as inet_ntop writes it).
   */
  lemma InetLineReadsBack(c: Candidate)
    requires IsInetFamily(c.family)
    requires '\t' !in c.address && '\n' !in c.address
    ensures Render(c).err == ""
    ensures ReadLine(Render(c).out) == Some(Reading(c.socktype, c.protocol, c.port, c.address))
  {
    TypeTableWellFormed();
    ProtoTableWellFormed();
    FieldHasNoTab(TypeTable, c.socktype);
    FieldHasNoTab(ProtoTable, c.protocol);
    var fields := [TypeField(c.socktype), ProtoField(c.protocol), Decimal(c.port), c.address];
    var body := Join(fields, '\t');
    JoinFour(fields[0], fields[1], fields[2], fields[3], '\t');
    assert Render(c).out == body + "\n";
    assert (body + "\n")[..|body + "\n"| - 1] == body;
    SplitJoin(fields, '\t');
    FieldRoundTrip(TypeTable, c.socktype);
    FieldRoundTrip(ProtoTable, c.protocol);
    DecimalRoundTrip(c.port);
  }

  lemma JoinFour(a: string, b: string, c: string, d: string, sep: char)
    ensures Join([a, b, c, d], sep) == a + [sep] + b + [sep] + c + [sep] + d
  {
    var f := [a, b, c, d];
    assert f[1..] == [b, c, d] && f[1..][1..] == [c, d] && f[1..][1..][1..] == [d];
    calc {
      Join(f, sep);
      a + [sep] + Join([b, c, d], sep);
      a + [sep] + (b + [sep] + Join([c, d], sep));
      a + [sep] + (b + [sep] + (c + [sep] + d));
      a + [sep] + b + [sep] + c + [sep] + d;
    }
  }

  // ---- the walk -----------------------------------------------------------

  lemma {:induction false} AllOutAppend(a: seq<Emission>, b: seq<Emission>)
    ensures AllOut(a + b) == AllOut(a) + AllOut(b)
    ensures AllErr(a + b) == AllErr(a) + AllErr(b)
  {
    if b == [] {
      assert a + b == a;
    } else {
      var ab, b', e := a + b, b[..|b| - 1], b[|b| - 1];
      assert ab[..|ab| - 1] == a + b' && ab[|ab| - 1] == e;
      AllOutAppend(a, b');
      calc {
        AllOut(ab);
        AllOut(a + b') + e.out;
        (AllOut(a) + AllOut(b')) + e.out;
        AllOut(a) + (AllOut(b') + e.out);
      }
      calc {
        AllErr(ab);
        AllErr(a + b') + e.err;
        (AllErr(a) + AllErr(b')) + e.err;
        AllErr(a) + (AllErr(b') + e.err);
      }
    }
  }

  /**
   * The walk treats candidates one by one, in list order: the output of a
   * concatenated list is the concatenated output, on both streams.
   */
  lemma WalkAppend(a: seq<Candidate>, b: seq<Candidate>)
    ensures Stdout(a + b) == Stdout(a) + Stdout(b)
    ensures Stderr(a + b) == Stderr(a) + Stderr(b)
  {
    assert Emissions(a + b) == Emissions(a) + Emissions(b);
    AllOutAppend(Emissions(a), Emissions(b));
  }

  lemma WalkSnoc(cs: seq<Candidate>, c: Candidate)
    ensures Stdout(cs + [c]) == Stdout(cs) + Render(c).out
    ensures Stderr(cs + [c]) == Stderr(cs) + Render(c).err
  {
    var es, e := Emissions(cs), Render(c);
    assert Emissions(cs + [c]) == es + [e];
    assert (es + [e])[..|es|] == es;
  }

  /** How many candidates have family AF_INET or AF_INET6. */
  function InetCount(cs: seq<Candidate>): (n: nat)
    ensures n <= |cs|
  {
    if cs == [] then 0 else InetCount(cs[..|cs| - 1]) + (if IsInetFamily(cs[|cs| - 1].family) then 1 else 0)
  }

  lemma RenderNewlines(c: Candidate)
    requires IsInetFamily(c.family) ==> '\n' !in c.address
    ensures Count(Render(c).out, '\n') == (if IsInetFamily(c.family) then 1 else 0)
    ensures Count(Render(c).err, '\n') == (if IsInetFamily(c.family) then 0 else 1)
  {
    TypeTableWellFormed();
    ProtoTableWellFormed();
    FieldHasNoTab(TypeTable, c.socktype);
    FieldHasNoTab(ProtoTable, c.protocol);
    CountAbsent("", '\n');
    if IsInetFamily(c.family) {
      InetNewlines(c);
    } else {
      OtherNewlines(c);
    }
  }

  lemma InetNewlines(c: Candidate)
    requires '\n' !in c.address && IsInetFamily(c.family)
    requires '\n' !in TypeField(c.socktype) && '\n' !in ProtoField(c.protocol)
    ensures Count(Render(c).out, '\n') == 1 && Render(c).err == ""
  {
    var text := TypeField(c.socktype) + "\t" + ProtoField(c.protocol) + "\t" + Decimal(c.port) + "\t" + c.address;
    assert Render(c).out == text + "\n";
    CountAbsent(text, '\n');
    CountAppend(text, "\n", '\n');
    CountAbsent("", '\n');
  }

  lemma OtherNewlines(c: Candidate)
    requires !IsInetFamily(c.family)
    requires '\n' !in TypeField(c.socktype) && '\n' !in ProtoField(c.protocol)
    ensures Count(Render(c).out, '\n') == 0 && Count(Render(c).err, '\n') == 1
  {
    var text := "Unknown address family " + Decimal(c.family);
    var head := TypeField(c.socktype) + "\t" + ProtoField(c.protocol) + "\t";
    assert Render(c).out == head && Render(c).err == text + "\n";
    CountAbsent(head, '\n');
    CountAbsent(text, '\n');
    CountAppend(text, "\n", '\n');
    CountAbsent("", '\n');
  }

  /**
   * A candidate of any other family writes only its type and protocol columns
   * to stdout, with no newline, and a one-line diagnostic to stderr whose
   * number reads back to the family it names.
   */
  lemma OtherFamilyReadsBack(c: Candidate)
    requires !IsInetFamily(c.family)
    ensures Render(c).out == TypeField(c.socktype) + "\t" + ProtoField(c.protocol) + "\t"
    ensures Render(c).err == "Unknown address family " + Decimal(c.family) + "\n"
    ensures var e := Render(c).err;
      var prefix := "Unknown address family ";
      |e| > |prefix| + 1 && e[..|prefix|] == prefix && e[|e| - 1] == '\n' &&
      DecimalValue(e[|prefix|..|e| - 1]) == c.family
  {
    var prefix := "Unknown address family ";
    var e := Render(c).err;
    assert e == prefix + Decimal(c.family) + "\n";
    assert e[|prefix|..|e| - 1] == Decimal(c.family);
    DecimalRoundTrip(c.family);
  }

  /**
   * Stdout ends exactly one line per AF_INET/AF_INET6 candidate, and stderr
   * holds exactly one line per candidate of any other family: an unknown
   * family does not stop the walk.
   */
  lemma {:induction false} WalkLineCounts(cs: seq<Candidate>)
    requires forall i :: 0 <= i < |cs| ==> IsInetFamily(cs[i].family) ==> '\n' !in cs[i].address
    ensures Count(Stdout(cs), '\n') == InetCount(cs)
    ensures Count(Stderr(cs), '\n') == |cs| - InetCount(cs)
  {
    if cs != [] {
      var init, c := cs[..|cs| - 1], cs[|cs| - 1];
      WalkLineCounts(init);
      assert init + [c] == cs;
      WalkSnoc(init, c);
      RenderNewlines(c);
      CountAppend(Stdout(init), Render(c).out, '\n');
      CountAppend(Stderr(init), Render(c).err, '\n');
    }
  }

  /**
   * A candidate of another family (here AF_UNIX, 1) leaves its type and
   * protocol on stdout without a newline, so they open the next candidate's
   * line: two candidates give one stdout line of six fields.
   */
  lemma UnknownFamilyJoinsNextLine()
    ensures Stdout([Candidate(SOCK_STREAM, IPPROTO_TCP, 1, 0, ""),
                    Candidate(SOCK_STREAM, IPPROTO_TCP, AF_INET, 80, "192.0.2.1")])
            == "STREAM\tTCP\t" + "STREAM\tTCP\t80\t192.0.2.1\n"
  {
    var u := Candidate(SOCK_STREAM, IPPROTO_TCP, 1, 0, "");
    var v := Candidate(SOCK_STREAM, IPPROTO_TCP, AF_INET, 80, "192.0.2.1");
    ExampleRenders(u, v);
    TwoCandidates(u, v);
  }

  lemma TwoCandidates(u: Candidate, v: Candidate)
    ensures Stdout([u, v]) == Render(u).out + Render(v).out
  {
    var none: seq<Candidate> := [];
    assert Stdout(none) == "" by {
      assert Emissions(none) == [];
    }
    calc {
      Stdout([u, v]);
    == { assert [u] + [v] == [u, v]; WalkSnoc([u], v); }
      Stdout([u]) + Render(v).out;
    == { assert none + [u] == [u]; WalkSnoc(none, u); }
      Render(u).out + Render(v).out;
    }
  }

  lemma ExampleRenders(u: Candidate, v: Candidate)
    requires u == Candidate(SOCK_STREAM, IPPROTO_TCP, 1, 0, "")
    requires v == Candidate(SOCK_STREAM, IPPROTO_TCP, AF_INET, 80, "192.0.2.1")
    ensures Render(u).out == "STREAM\tTCP\t" && Render(v).out == "STREAM\tTCP\t80\t192.0.2.1\n"
  {
    TypeFieldCases(SOCK_STREAM);
    ProtoFieldCases(IPPROTO_TCP);
    assert Decimal(80) == "80" by {
      assert NatText(8) == "8";
    }
  }
}
