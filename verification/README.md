# gai, modelled in Dafny

`gai` is a small command-line tool that resolves a host name with
`getaddrinfo` and prints one tab-separated line per result: socket type,
protocol, port and numeric address. This project models its `main` (main.c):

- the option loop that folds `-4`, `-6`, `-f NAME`, `-t NAME`, `-P NAME` and
  `-p SERVICE` into an `addrinfo` hints record and a service string, and the
  usage errors (unknown option, no host name);
- the walk over the result list, with the socket-type and protocol `switch`es
  that print a name for the known values and the decimal number otherwise, and
  the family branch that prints port and address for `AF_INET`/`AF_INET6` and
  a diagnostic on stderr for any other family;
- `main` as a whole, with the resolver as a parameter.

Files: `results.dfy` (Option, Result), `text.dfy` (the C-locale `strcasecmp`,
the `%d` decimal text and its inverse, tab splitting), `tables.dfy` (name/value
tables: the code's chains of `if`s next to first-match reference lookups),
`netdb.dfy` (Linux/glibc constants and the three tables main.c spells out),
`options.dfy` (main.c:28-93), `report.dfy` (main.c:102-156), `tool.dfy` (the
whole of `main`).

The three tables hold exactly the names main.c tests: flags V4MAPPED,
ADDRCONFIG, ALL, CANONNAME, NUMERICHOST, NUMERICSERV, PASSIVE; types STREAM,
DGRAM, RAW, SEQPACKET; protocols IP, IPV6, ICMP, TCP, UDP, RAW. Values are the
Linux/glibc ones (`SOCK_SEQPACKET` = 5, `IPPROTO_RAW` = 255, `AI_NUMERICSERV` =
0x400, `AF_INET6` = 10, ...).

Behaviour of the code worth knowing, modelled as written:

- `-t` and `-P` with a name the table does not know leave the field exactly as
  it was (they do not reset it to 0); `-f` with an unknown name adds nothing.
- A socket type or protocol outside the table prints as its decimal number,
  not as a fixed word such as "UNKNOWN".
- For a candidate whose family is neither `AF_INET` nor `AF_INET6`, the type
  and protocol columns have already been printed to stdout when the family is
  tested; no newline follows, so they open the next candidate's line
  (`Report.UnknownFamilyJoinsNextLine`). Such a candidate is therefore not
  silent on stdout.
- Operands after the first are ignored; the host is the first one.

## Model

| member | source | states |
|---|---|---|
| Text.StrCaseEq | main.c:41-78 | `strcasecmp(a, b) == 0` holds exactly when the two strings are equal after ASCII lower-casing |
| Text.Decimal | main.c:117-118 | `%d` text is non-empty, made of digits after an optional leading minus sign, starts with a digit exactly for non-negative values, and has no leading zero (a leading `0` only in `"0"` itself, never right after the minus sign) |
| Text.DecimalRoundTrip | main.c:117-118 | the decimal text of any integer reads back to that integer |
| Tables.IndexOfName | main.c:56-65 | the reference lookup the `if`-chain is proved equal to (see `Tables.OverwriteIsLookup`): it finds the first entry whose name matches ignoring case, and reports none only when no entry matches |
| Tables.Overwrite | main.c:56-79 | the `-t`/`-P` chain of independent `if (!strcasecmp(..)) field = VALUE;`, last match winning; a name no entry matches leaves the field unchanged; `OverwriteIsLookup` states its full behaviour |
| Tables.OrEach | main.c:40-55 | the `-f` chain of independent `strcasecmp` tests, each ORing its bit into the flags; the old bits are always kept and a name no entry matches adds nothing; `OrEachIsLookup` states its full behaviour |
| Tables.IndexOfValue | main.c:104-119 | value lookup finds the first entry with that value, and reports none only when no entry has it |
| Tables.LookupIgnoresCase | main.c:41-78 | two spellings equal up to case look up the same value |
| Tables.OverwriteIsLookup | main.c:56-79 | the chain of independent `if (!strcasecmp(..)) field = VALUE;` sets the value of the one matching name, and leaves the field unchanged when no name matches |
| Tables.OrEachIsLookup | main.c:40-55 | the chain of `if (!strcasecmp(..))` statements that OR a flag into `ai_flags` adds the bit of the one matching name, or nothing |
| Tables.OverwriteIgnoresCase | main.c:56-79 | the chain of `if`s for `-t`/`-P` gives the same result for two arguments equal up to case |
| Tables.OrEachIgnoresCase | main.c:40-55 | the chain of `if`s for `-f` gives the same flags for two arguments equal up to case |
| Tables.NameValueName | main.c:57-64 | a known name in any casing looks up its entry's value, and that value prints back as the canonical upper-case name |
| Tables.FieldOfEntry | main.c:104-116 | a value of the table prints as its entry's name |
| Tables.FieldOfOther | main.c:117-118 | a value outside the table prints as its decimal number |
| Tables.FieldRoundTrip | main.c:104-141 | every printed type or protocol column, name or number, reads back to the value it was printed from |
| Netdb.FlagBitsDisjoint | main.c:40-55 | each AI_ flag the tool accepts is a single bit and no two share a bit |
| Netdb.TablesWellFormed | main.c:40-79 | flag, type and protocol tables have canonical upper-case names that differ even ignoring case, and distinct values |
| Options.Step | main.c:33-86 | one turn of the option switch fails exactly for a character outside "46f:t:p:P:", with that character |
| Options.Fold | main.c:32-88 | the option loop, leaving at the first bad option; it only ever fails with `BadOption` of a character outside the getopt string; `FoldIsLastWins` and `FoldFailsIff` state its result |
| Options.Parse | main.c:32-93 | the loop followed by the host check; no operand means a usage error, and success takes the first operand as host; `ParseResult` and `ParseFailsIff` state the rest |
| Options.BuildRequest | main.c:28-93 | the option loop that updates the hints field by field returns what `Parse` specifies |
| Options.StepChangesOwnField | main.c:34-82 | `-4`/`-6` set only the family, `-f` only ORs in the named bit, `-t`/`-P` only set the named value (an unknown name keeps the old one), `-p` only sets the service |
| Options.FlagStep | main.c:40-55 | `-f NAME` ORs the named flag into `ai_flags`, or nothing for an unknown name, and changes nothing else |
| Options.SockTypeStep | main.c:56-65 | `-t NAME` sets `ai_socktype` to the named type, keeps it for an unknown name, and changes nothing else |
| Options.ProtocolStep | main.c:66-79 | `-P NAME` sets `ai_protocol` to the named protocol, keeps it for an unknown name, and changes nothing else |
| Options.UnknownNameChangesNothing | main.c:40-79 | `-f`, `-t` or `-P` with a name no table knows leaves the whole request unchanged |
| Options.StepIgnoresCase | main.c:41-78 | every option but `-p` acts the same for two arguments equal up to case |
| Options.FoldIsLastWins | main.c:32-87 | after the loop, family, type, protocol and service are those of the last recognised option (else their previous value), and the flags are the previous flags ORed with the bits of every recognised `-f` name |
| Options.FoldStopsAtFirstBadOption | main.c:83-86 | the loop stops with a usage error at the first option character outside the getopt string |
| Options.FoldFailsIff | main.c:32-87 | the loop fails if and only if some option character is outside the getopt string |
| Options.ParseFailsIff | main.c:83-92 | a usage error happens exactly for an unknown option or when no operand is left for the host |
| Options.ParseResult | main.c:23-93 | a successful parse takes the first operand as host and starts from AF_UNSPEC, type 0, protocol 0, no flags and a NULL service, each overridden by its last recognised option, flags accumulated |
| Options.FlagsAccumulate | main.c:40-55 | a bit set by a recognised `-f` name is never cleared by later options |
| Options.PassiveThenCanonname | main.c:47-54 | `-f PASSIVE -f CANONNAME`, in any casing, adds exactly AI_PASSIVE and AI_CANONNAME |
| Report.PrintResults | main.c:102-156 | the walk over the list returns exactly the stdout and stderr text of the candidates, one after another in list order |
| Report.TypeField | main.c:104-119 | the `switch (next->ai_socktype)`: a non-empty column with no tab or newline; `TypeFieldCases` gives its value case by case |
| Report.ProtoField | main.c:120-141 | the `switch (next->ai_protocol)`: a non-empty column with no tab or newline; `ProtoFieldCases` gives its value case by case |
| Report.Render | main.c:104-154 | one pass of the loop body: stderr stays empty exactly for AF_INET/AF_INET6, which end a stdout line; any other family ends a stderr line and leaves stdout without a newline; `InetLineReadsBack`, `OtherFamilyReadsBack` and `RenderNewlines` state its output |
| Report.TypeFieldCases | main.c:104-119 | the type column is STREAM, DGRAM, RAW or SEQPACKET for those four constants and the decimal number for any other value |
| Report.ProtoFieldCases | main.c:120-141 | the protocol column is IP, IPV6, TCP, UDP, ICMP or RAW for those six constants and the decimal number for any other value |
| Report.TypeOptionRoundTrip | main.c:57-64 | the socket type `-t NAME` sets, for any casing of a known NAME, prints as the upper-case NAME |
| Report.ProtoOptionRoundTrip | main.c:67-78 | the protocol `-P NAME` sets, for any casing of a known NAME, prints as the upper-case NAME |
| Report.InetLineReadsBack | main.c:142-151 | an AF_INET/AF_INET6 candidate writes nothing to stderr and one stdout line of four tab-separated fields that read back to its type, protocol, port and address |
| Report.OtherFamilyReadsBack | main.c:104-154 | a candidate of any family other than AF_INET/AF_INET6 writes exactly its type and protocol columns, each followed by a tab and no newline, to stdout, and to stderr exactly `Unknown address family `, the `%d` text of its raw family, and a newline; that number reads back to the family |
| Report.RenderNewlines | main.c:142-154 | a candidate ends one stdout line if its family is AF_INET/AF_INET6 and one stderr line otherwise |
| Report.AllOutAppend | main.c:102-156 | the text of a series of per-candidate outputs splits at any point into the texts of the two parts |
| Report.WalkAppend | main.c:102-156 | the output of a concatenated list is the concatenated output on both streams: order is kept and each candidate is printed on its own |
| Report.WalkSnoc | main.c:155 | advancing to the next candidate appends exactly its output to what was printed before |
| Report.WalkLineCounts | main.c:102-156 | stdout has one line per AF_INET/AF_INET6 candidate and stderr one diagnostic per candidate of any other family; an unknown family does not stop the walk |
| Report.UnknownFamilyJoinsNextLine | main.c:104-154 | an AF_UNIX candidate followed by an AF_INET one yields the single stdout line `STREAM\tTCP\tSTREAM\tTCP\t80\t192.0.2.1` |
| Tool.Usage | main.c:12-18 | the usage text starts with `Usage: ` followed by the program name in place of `%s`, and ends with a newline |
| Tool.Run | main.c:20-160 | the run exits with success exactly when parsing succeeds and the resolver returns a list, and with failure otherwise |
| Tool.UsageErrorSkipsResolver | main.c:83-92 | on an unknown option or a missing host the usage text goes to stdout, the status is failure and the outcome is the same whatever the resolver would return |
| Tool.RunCallsResolverOnce | main.c:89-100 | with valid options and a host, the resolver is called with the first operand, the last service and the folded hints; its error goes to stderr with failure, its list is reported with success even when empty |

## Left out

- `getopt` itself: the options arrive already split into (character, argument)
  tokens and the operands after them; argument permutation, `optind`/`optarg`
  and getopt's own stderr message for a bad or incomplete option are not modelled.
- `getaddrinfo`, `gai_strerror` and `freeaddrinfo`: the resolver is a function
  parameter returning the result list or the error text; releasing the list is
  not modelled.
- `inet_ntop` and `ntohs`: a candidate carries its address text and its port in
  host order; the socket-address structures and pointer casts are not modelled.
- The result list is a sequence; its `ai_next` pointers are not modelled.
- Output is two strings, one per stream; how the two streams interleave on a
  terminal and stdio buffering are not modelled. The exit status is a field of
  the outcome.
- Report.InetLineReadsBack: assumes the address text has no tab or newline, as
  `inet_ntop` output never does.
- Report.RenderNewlines and Report.WalkLineCounts: assume an AF_INET/AF_INET6
  candidate's address text has no newline, for the same reason.
- Hint fields the program never sets (`ai_addrlen`, `ai_addr`, `ai_canonname`,
  `ai_next`) are left out of the hints record; they stay zero.
- Candidate fields are unbounded integers; the C `int` and `sa_family_t` widths
  are not modelled because the program only compares and prints them.
- `strcasecmp` is modelled in the C locale (the program never calls
  `setlocale`), and argument strings are taken to contain no NUL character.
