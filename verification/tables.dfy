/**
 * Name/value tables. The program spells each table twice: as a chain of
 * independent `if (!strcasecmp(arg, NAME)) field = VALUE;` statements when it
 * reads options, and as a `switch` on the value when it prints a result. Here a
 * table is data; `Overwrite` and `OrEach` follow the chains of `if`s step by
 * step, and `Lookup` / `NameOf` are the first-match reference readings.
 */
module Tables {
  import opened Results
  import opened Text

  datatype Entry<V> = Entry(name: string, value: V)

  /** Names are canonical and pairwise distinct, values pairwise distinct. */
  predicate WellFormed<V(==)>(t: seq<Entry<V>>)
  {
    && (forall i :: 0 <= i < |t| ==> IsCanonicalName(t[i].name))
    && (forall i, j :: 0 <= i < j < |t| ==> t[i].name != t[j].name)
    && (forall i, j :: 0 <= i < j < |t| ==> t[i].value != t[j].value)
  }

  /** The first entry whose name equals `name` ignoring case. */
  function IndexOfName<V>(t: seq<Entry<V>>, name: string): (r: Option<nat>)
    ensures r.Some? ==> r.value < |t| && StrCaseEq(name, t[r.value].name)
    ensures r.Some? ==> forall j :: 0 <= j < r.value ==> !StrCaseEq(name, t[j].name)
    ensures r.None? ==> forall j :: 0 <= j < |t| ==> !StrCaseEq(name, t[j].name)
  {
    if t == [] then None
    else if StrCaseEq(name, t[0].name) then Some(0)
    else match IndexOfName(t[1..], name)
      case None => None
      case Some(k) => Some(k + 1)
  }

  /** The first entry whose value is `v`. */
  function IndexOfValue<V(==)>(t: seq<Entry<V>>, v: V): (r: Option<nat>)
    ensures r.Some? ==> r.value < |t| && t[r.value].value == v
    ensures r.Some? ==> forall j :: 0 <= j < r.value ==> t[j].value != v
    ensures r.None? ==> forall j :: 0 <= j < |t| ==> t[j].value != v
  {
    if t == [] then None
    else if t[0].value == v then Some(0)
    else match IndexOfValue(t[1..], v)
      case None => None
      case Some(k) => Some(k + 1)
  }

  function Lookup<V>(t: seq<Entry<V>>, name: string): Option<V>
  {
    match IndexOfName(t, name)
    case None => None
    case Some(i) => Some(t[i].value)
  }

  function NameOf<V(==)>(t: seq<Entry<V>>, v: V): Option<string>
  {
    match IndexOfValue(t, v)
    case None => None
    case Some(i) => Some(t[i].name)
  }

  /** In a well-formed table at most one name matches a given string. */
  lemma MatchIsUnique<V>(t: seq<Entry<V>>, name: string, i: nat, j: nat)
    requires WellFormed(t)
    requires i < |t| && j < |t|
    requires StrCaseEq(name, t[i].name) && StrCaseEq(name, t[j].name)
    ensures i == j
  {
    LoweredInjective(t[i].name, t[j].name);
  }

  /** Lookup sees a name only through its case-folded spelling. */
  lemma {:induction false} LookupIgnoresCase<V>(t: seq<Entry<V>>, a: string, b: string)
    requires StrCaseEq(a, b)
    ensures Lookup(t, a) == Lookup(t, b)
  {
    if t != [] {
      LookupIgnoresCase(t[1..], a, b);
    }
  }

  /**
   * The chain `if (!strcasecmp(name, t[0].name)) cur = t[0].value; if (...) ...`:
   * every matching entry overwrites what the earlier ones left.
   */
  function Overwrite<V>(t: seq<Entry<V>>, name: string, cur: V): (r: V)
    ensures (forall j :: 0 <= j < |t| ==> !StrCaseEq(name, t[j].name)) ==> r == cur
  {
    if t == [] then cur
    else Overwrite(t[1..], name, if StrCaseEq(name, t[0].name) then t[0].value else cur)
  }

  /** The chain `if (!strcasecmp(name, t[0].name)) flags |= t[0].value; ...`. */
  function OrEach(t: seq<Entry<bv32>>, name: string, flags: bv32): (r: bv32)
    ensures r & flags == flags
    ensures (forall j :: 0 <= j < |t| ==> !StrCaseEq(name, t[j].name)) ==> r == flags
  {
    if t == [] then flags
    else OrEach(t[1..], name, if StrCaseEq(name, t[0].name) then flags | t[0].value else flags)
  }

  /**
   * With a well-formed table the chain of `if`s sets the value of the one
   * matching entry, and leaves `cur` alone when no entry matches.
   */
  lemma {:induction false} OverwriteIsLookup<V>(t: seq<Entry<V>>, name: string, cur: V)
    requires WellFormed(t)
    ensures Overwrite(t, name, cur) == Lookup(t, name).GetOr(cur)
  {
    if t != [] {
      if StrCaseEq(name, t[0].name) {
        forall j | 0 <= j < |t[1..]| ensures !StrCaseEq(name, t[1..][j].name) {
          if StrCaseEq(name, t[1..][j].name) {
            MatchIsUnique(t, name, 0, j + 1);
          }
        }
      } else {
        assert WellFormed(t[1..]);
        OverwriteIsLookup(t[1..], name, cur);
      }
    }
  }

  lemma OrEachHeadMatch(t: seq<Entry<bv32>>, name: string, flags: bv32)
    requires WellFormed(t) && t != [] && StrCaseEq(name, t[0].name)
    ensures OrEach(t, name, flags) == flags | t[0].value
    ensures Lookup(t, name) == Some(t[0].value)
  {
    forall j | 0 <= j < |t[1..]| ensures !StrCaseEq(name, t[1..][j].name) {
      if StrCaseEq(name, t[1..][j].name) {
        MatchIsUnique(t, name, 0, j + 1);
      }
    }
  }

  /** With a well-formed table the chain of `|=`s adds the one matching bit, or nothing. */
  lemma {:induction false} OrEachIsLookup(t: seq<Entry<bv32>>, name: string, flags: bv32)
    requires WellFormed(t)
    ensures OrEach(t, name, flags) == flags | Lookup(t, name).GetOr(0)
  {
    if t == [] {
    } else if StrCaseEq(name, t[0].name) {
      OrEachHeadMatch(t, name, flags);
    } else {
      assert WellFormed(t[1..]);
      OrEachIsLookup(t[1..], name, flags);
      assert Lookup(t, name) == Lookup(t[1..], name);
    }
  }

  /** The chain of `if`s sees a name only through its case-folded spelling. */
  lemma {:induction false} OverwriteIgnoresCase<V>(t: seq<Entry<V>>, a: string, b: string, cur: V)
    requires StrCaseEq(a, b)
    ensures Overwrite(t, a, cur) == Overwrite(t, b, cur)
  {
    if t != [] {
      OverwriteIgnoresCase(t[1..], a, b, if StrCaseEq(a, t[0].name) then t[0].value else cur);
    }
  }

  /** The chain of `|=`s sees a name only through its case-folded spelling. */
  lemma {:induction false} OrEachIgnoresCase(t: seq<Entry<bv32>>, a: string, b: string, flags: bv32)
    requires StrCaseEq(a, b)
    ensures OrEach(t, a, flags) == OrEach(t, b, flags)
  {
    if t != [] {
      OrEachIgnoresCase(t[1..], a, b, if StrCaseEq(a, t[0].name) then flags | t[0].value else flags);
    }
  }

  /**
   * Name to value and back: a name found in the table (in any casing) has a
   * value whose printed name is that table name, spelled canonically.
   */
  lemma NameValueName<V>(t: seq<Entry<V>>, name: string, i: nat)
    requires WellFormed(t)
    requires i < |t| && StrCaseEq(name, t[i].name)
    ensures Lookup(t, name) == Some(t[i].value)
    ensures NameOf(t, t[i].value) == Some(t[i].name)
  {
    var k := IndexOfName(t, name).value;
    MatchIsUnique(t, name, i, k);
  }

  /** The text printed for a value: its table name, or else its decimal number. */
  function Field(t: seq<Entry<int>>, v: int): string
  {
    match NameOf(t, v)
    case Some(n) => n
    case None => Decimal(v)
  }

  /** A value of the table prints as its entry's name. */
  lemma FieldOfEntry(t: seq<Entry<int>>, i: nat)
    requires WellFormed(t) && i < |t|
    ensures Field(t, t[i].value) == t[i].name
  {
    var k := IndexOfValue(t, t[i].value).value;
    assert !(k < i) && !(i < k);
  }

  /** A value outside the table prints as its decimal number. */
  lemma FieldOfOther(t: seq<Entry<int>>, v: int)
    requires forall i :: 0 <= i < |t| ==> t[i].value != v
    ensures Field(t, v) == Decimal(v)
  {
  }

  /** Reads a printed field back: a table name, or else a decimal number. */
  function ReadField(t: seq<Entry<int>>, s: string): int
  {
    match Lookup(t, s)
    case Some(v) => v
    case None => DecimalValue(s)
  }

  /** A printed field holds only letters, digits and a minus sign. */
  lemma FieldChars(t: seq<Entry<int>>, v: int)
    requires WellFormed(t)
    ensures forall i :: 0 <= i < |Field(t, v)| ==> IsUpperOrDigit(Field(t, v)[i]) || Field(t, v)[i] == '-'
  {
  }

  /** Decimal text never matches a table name, whatever the casing. */
  lemma DecimalIsNoName(t: seq<Entry<int>>, v: int)
    requires WellFormed(t)
    ensures Lookup(t, Decimal(v)) == None
  {
    var d := Decimal(v);
    forall j | 0 <= j < |t| ensures !StrCaseEq(d, t[j].name) {
      assert Lowered(d)[0] == ToLower(d[0]) != ToLower(t[j].name[0]) == Lowered(t[j].name)[0];
    }
  }

  /** Value to text and back: every value, in the table or not, is read back from its field. */
  lemma FieldRoundTrip(t: seq<Entry<int>>, v: int)
    requires WellFormed(t)
    ensures ReadField(t, Field(t, v)) == v
  {
    match IndexOfValue(t, v)
    case Some(i) =>
      NameValueName(t, t[i].name, i);
    case None =>
      DecimalIsNoName(t, v);
      DecimalRoundTrip(v);
  }
}
