/** LDAP search filters: compiling a request packet, evaluating entries in three-valued logic, and
    matching substrings greedily. */
module LdapFilter {
  import opened Common

  // ----- Packets and entries -----

  datatype Class = Universal | Application | Context | Private

  /** A decoded element: class, form, tag, the text of a primitive, the parts of a constructed one. */
  datatype Packet = Packet(class_: Class, constructed: bool, tag: nat, data: string, children: seq<Packet>)

  const TAG_AND := 0
  const TAG_OR := 1
  const TAG_NOT := 2
  const TAG_EQUALITY := 3
  const TAG_SUBSTRINGS := 4
  const TAG_PRESENT := 7
  const TAG_OCTET_STRING := 4
  const TAG_SEQUENCE := 16

  /** Attribute values by lower-case attribute name. */
  type Entry = map<string, seq<string>>

  function Values(e: Entry, name: string): seq<string> {
    if name in e then e[name] else []
  }

  /** What comes from libraries: Unicode lower case and folding, and distinguished names. */
  datatype Rules = Rules(
    lower: string -> string, foldEqual: (string, string) -> bool,
    validDN: string -> bool, sameDN: (string, string) -> bool)

  const DN_ATTRIBUTES := {"member", "uniquemember", "memberof", "namingcontexts"}
  const INTEGER_ATTRIBUTES := {"uidnumber", "gidnumber"}
  const KNOWN_ATTRIBUTES :=
    DN_ATTRIBUTES + INTEGER_ATTRIBUTES +
    {"objectclass", "uid", "cn", "sn", "ou", "dc", "o", "mail", "homedirectory", "loginshell", "memberuid",
     "supportedldapversion", "vendorname"}

  // ----- Filters and their meaning -----

  datatype PartKind = Initial | Any | Final
  datatype Part = Part(kind: PartKind, text: string)

  datatype Filter =
    | Present(name: string)
    | And(children: seq<Filter>)
    | Or(children: seq<Filter>)
    | Not(child: Filter)
    | Equality(name: string, value: string)
    | Substrings(name: string, parts: seq<Part>)

  datatype Match = False | True | Undefined

  function Truth(b: bool): Match {
    if b then True else False
  }

  /** Kleene's strong three-valued connectives over any number of values. */
  function Conjunction(vs: seq<Match>): Match {
    if False in vs then False else if Undefined in vs then Undefined else True
  }

  function Disjunction(vs: seq<Match>): Match {
    if True in vs then True else if Undefined in vs then Undefined else False
  }

  function Negation(v: Match): Match {
    match v
    case True => False
    case False => True
    case Undefined => Undefined
  }

  predicate IsDigits(s: string) {
    s != "" && forall i :: 0 <= i < |s| ==> '0' <= s[i] <= '9'
  }

  function Decimal(s: string): nat
    requires forall i :: 0 <= i < |s| ==> '0' <= s[i] <= '9'
  {
    if s == "" then 0 else 10 * Decimal(s[..|s| - 1]) + (s[|s| - 1] as int - '0' as int)
  }

  /** A signed 64-bit decimal number. */
  function ParseInt(s: string): Option<int> {
    var digits := if s != "" && (s[0] == '+' || s[0] == '-') then s[1..] else s;
    if !IsDigits(digits) then None
    else
      var n := if s[0] == '-' then 0 - Decimal(digits) else Decimal(digits);
      if -0x8000_0000_0000_0000 <= n <= 0x7FFF_FFFF_FFFF_FFFF then Some(n) else None
  }

  predicate EqualAttribute(rules: Rules, name: string, a: string, b: string) {
    if name in DN_ATTRIBUTES then rules.validDN(a) && rules.validDN(b) && rules.sameDN(a, b)
    else if name in INTEGER_ATTRIBUTES then ParseInt(a).Some? && ParseInt(a) == ParseInt(b)
    else rules.foldEqual(a, b)
  }

  /** The assertion value is one that the attribute can be compared with. */
  predicate Comparable(rules: Rules, name: string, value: string) {
    if name in DN_ATTRIBUTES then rules.validDN(value)
    else if name in INTEGER_ATTRIBUTES then ParseInt(value).Some?
    else name in KNOWN_ATTRIBUTES
  }

  predicate HasSubstrings(name: string) {
    name in KNOWN_ATTRIBUTES && name !in DN_ATTRIBUTES && name !in INTEGER_ATTRIBUTES
  }

  function LowerParts(rules: Rules, parts: seq<Part>): (r: seq<Part>)
    ensures |r| == |parts|
  {
    seq(|parts|, i requires 0 <= i < |parts| => Part(parts[i].kind, rules.lower(parts[i].text)))
  }

  /** The value of a filter on an entry. */
  ghost function Value(rules: Rules, f: Filter, e: Entry): Match
    decreases f
  {
    match f
    case Present(name) => if name !in KNOWN_ATTRIBUTES then Undefined else Truth(Values(e, name) != [])
    case And(children) => Conjunction(Evaluated(rules, children, e))
    case Or(children) => Disjunction(Evaluated(rules, children, e))
    case Not(child) => Negation(Value(rules, child, e))
    case Equality(name, value) =>
      if !Comparable(rules, name, value) then Undefined
      else Truth(exists v :: v in Values(e, name) && EqualAttribute(rules, name, v, value))
    case Substrings(name, parts) =>
      if !HasSubstrings(name) then Undefined
      else Truth(exists v :: v in Values(e, name) && Fits(rules.lower(v), LowerParts(rules, parts)))
  }

  ghost function Evaluated(rules: Rules, fs: seq<Filter>, e: Entry): (vs: seq<Match>)
    ensures |vs| == |fs|
    decreases fs
  {
    seq(|fs|, i requires 0 <= i < |fs| => Value(rules, fs[i], e))
  }

  // ----- Substring matching -----

  /** The fragments lie in the value at the given positions: in order, without overlap, an initial one
      at the start and a final one at the end. */
  ghost predicate Placed(value: string, parts: seq<Part>, at: seq<int>, start: int) {
    && |at| == |parts|
    && forall i :: 0 <= i < |parts| ==> PlacedAt(value, parts, at, start, i)
  }

  ghost predicate PlacedAt(value: string, parts: seq<Part>, at: seq<int>, start: int, i: int)
    requires 0 <= i < |parts| == |at|
  {
    var end := at[i] + |parts[i].text|;
    && 0 <= start <= at[i] && end <= |value| && value[at[i]..end] == parts[i].text
    && (i + 1 < |parts| ==> end <= at[i + 1])
    && (parts[i].kind.Initial? ==> at[i] == start)
    && (parts[i].kind.Final? ==> end == |value|)
  }

  /** The value splits into the fragments. */
  ghost predicate Fits(value: string, parts: seq<Part>) {
    exists at :: Placed(value, parts, at, 0)
  }

  predicate OnlyFirstInitial(parts: seq<Part>) {
    forall i :: 0 < i < |parts| ==> !parts[i].kind.Initial?
  }

  predicate OnlyLastFinal(parts: seq<Part>) {
    forall i :: 0 <= i < |parts| - 1 ==> !parts[i].kind.Final?
  }

  predicate Orderly(parts: seq<Part>) {
    OnlyFirstInitial(parts) && OnlyLastFinal(parts)
  }

  predicate HasPrefix(s: string, t: string) {
    t <= s
  }

  predicate HasSuffix(s: string, t: string) {
    |t| <= |s| && s[|s| - |t|..] == t
  }

  predicate OccursAt(s: string, t: string, k: int) {
    0 <= k <= |s| - |t| && s[k..k + |t|] == t
  }

  /** The first occurrence of `t` in `s` at or after `from`, or -1. */
  function IndexFrom(s: string, t: string, from: nat): (k: int)
    ensures k >= -1 && (k >= 0 ==> from <= k && OccursAt(s, t, k))
    ensures forall j :: from <= j && OccursAt(s, t, j) ==> 0 <= k <= j
    decreases |s| - from
  {
    if from + |t| > |s| then -1
    else if OccursAt(s, t, from) then from
    else IndexFrom(s, t, from + 1)
  }

  function Index(s: string, t: string): (k: int)
    ensures k >= -1 && (k >= 0 ==> OccursAt(s, t, k))
    ensures forall j :: OccursAt(s, t, j) ==> 0 <= k <= j
  {
    IndexFrom(s, t, 0)
  }

  /** What the matcher does with the fragments, left to right, taking each at its first occurrence. */
  predicate Greedy(rest: string, parts: seq<Part>)
    decreases |parts|
  {
    if parts == [] then true
    else
      var t := parts[0].text;
      match parts[0].kind
      case Initial => HasPrefix(rest, t) && Greedy(rest[|t|..], parts[1..])
      case Any => Index(rest, t) >= 0 && Greedy(rest[Index(rest, t) + |t|..], parts[1..])
      case Final => HasSuffix(rest, t) && Greedy(rest, parts[1..])
  }

  function Shift(at: seq<int>, d: int): (r: seq<int>)
    ensures |r| == |at|
  {
    seq(|at|, i requires 0 <= i < |at| => at[i] + d)
  }

  /** Placing one fragment and then the rest behind it. */
  lemma PlacedCons(value: string, parts: seq<Part>, k: int, at: seq<int>)
    requires parts != [] && OnlyFirstInitial(parts) && OnlyLastFinal(parts)
    requires OccursAt(value, parts[0].text, k) && (parts[0].kind.Initial? ==> k == 0)
    requires !parts[0].kind.Final? && Placed(value[k + |parts[0].text|..], parts[1..], at, 0)
    ensures Placed(value, parts, [k] + Shift(at, k + |parts[0].text|), 0)
  {
    var d := k + |parts[0].text|;
    var all := [k] + Shift(at, d);
    var rest := value[d..];
    forall i | 0 <= i < |parts| ensures PlacedAt(value, parts, all, 0, i) {
      if i > 0 {
        assert PlacedAt(rest, parts[1..], at, 0, i - 1);
        assert rest[at[i - 1]..at[i - 1] + |parts[i].text|] == value[all[i]..all[i] + |parts[i].text|];
      } else if 1 < |parts| {
        assert PlacedAt(rest, parts[1..], at, 0, 0);
      }
    }
  }

  /** Behind an earlier occurrence of the first fragment, the rest can stay where it is. */
  lemma PlacedTail(value: string, parts: seq<Part>, at: seq<int>, k: int)
    requires parts != [] && OnlyFirstInitial(parts) && Placed(value, parts, at, 0)
    requires 0 <= k <= at[0]
    ensures at[0] + |parts[0].text| <= |value|
    ensures Placed(value[k + |parts[0].text|..], parts[1..], Shift(at[1..], -(k + |parts[0].text|)), 0)
  {
    assert PlacedAt(value, parts, at, 0, 0);
    var d := k + |parts[0].text|;
    var rest := value[d..];
    var tail := Shift(at[1..], -d);
    forall i | 0 <= i < |parts| - 1 ensures PlacedAt(rest, parts[1..], tail, 0, i) {
      assert PlacedAt(value, parts, at, 0, i + 1) && PlacedAt(value, parts, at, 0, i);
      AfterFirst(value, parts, at, i + 1);
      assert rest[tail[i]..tail[i] + |parts[i + 1].text|] == value[at[i + 1]..at[i + 1] + |parts[i + 1].text|];
    }
  }

  lemma {:induction false} AfterFirst(value: string, parts: seq<Part>, at: seq<int>, i: int)
    requires Placed(value, parts, at, 0) && 0 < i < |parts|
    ensures at[0] + |parts[0].text| <= at[i]
  {
    assert PlacedAt(value, parts, at, 0, i - 1);
    if i > 1 {
      AfterFirst(value, parts, at, i - 1);
    }
  }

  lemma OrderlyTail(parts: seq<Part>)
    requires Orderly(parts) && parts != []
    ensures Orderly(parts[1..])
  {
  }

  lemma {:induction false} GreedySound(value: string, parts: seq<Part>)
    requires Orderly(parts) && Greedy(value, parts)
    ensures Fits(value, parts)
    decreases |parts|
  {
    hide Index;
    if parts == [] {
      assert Placed(value, parts, [], 0);
    } else {
      OrderlyTail(parts);
      var t := parts[0].text;
      if parts[0].kind.Final? {
        assert PlacedAt(value, parts, [|value| - |t|], 0, 0);
        assert Placed(value, parts, [|value| - |t|], 0);
      } else {
        var k := if parts[0].kind.Initial? then 0 else Index(value, t);
        GreedySound(value[k + |t|..], parts[1..]);
        var at :| Placed(value[k + |t|..], parts[1..], at, 0);
        PlacedCons(value, parts, k, at);
      }
    }
  }

  lemma {:induction false} GreedyComplete(value: string, parts: seq<Part>, at: seq<int>)
    requires Orderly(parts) && Placed(value, parts, at, 0)
    ensures Greedy(value, parts)
    decreases |parts|
  {
    hide Index;
    if parts != [] {
      OrderlyTail(parts);
      var t := parts[0].text;
      assert PlacedAt(value, parts, at, 0, 0);
      assert OccursAt(value, t, at[0]);
      if parts[0].kind.Final? {
        assert parts[1..] == [];
      } else {
        var k := if parts[0].kind.Initial? then 0 else Index(value, t);
        PlacedTail(value, parts, at, k);
        GreedyComplete(value[k + |t|..], parts[1..], Shift(at[1..], -(k + |t|)));
      }
    }
  }

  /** Greedy matching decides whether a split exists, for any number of fragments, empty ones included. */
  lemma GreedyDecides(value: string, parts: seq<Part>)
    requires Orderly(parts)
    ensures Greedy(value, parts) <==> Fits(value, parts)
  {
    hide Greedy;
    if Greedy(value, parts) {
      GreedySound(value, parts);
    }
    if Fits(value, parts) {
      var at :| Placed(value, parts, at, 0);
      GreedyComplete(value, parts, at);
    }
  }

  // ----- What the operators mean, operand by operand -----

  lemma OperandAt(rules: Rules, fs: seq<Filter>, e: Entry, v: Match)
    ensures v in Evaluated(rules, fs, e) <==> exists i :: 0 <= i < |fs| && Value(rules, fs[i], e) == v
  {
    hide Value;
    var vs := Evaluated(rules, fs, e);
    forall i | 0 <= i < |fs| ensures vs[i] == Value(rules, fs[i], e) {
    }
  }

  /** AND is true if all operands are, false if some operand is, and undefined otherwise. */
  lemma AndValue(rules: Rules, fs: seq<Filter>, e: Entry)
    ensures Value(rules, And(fs), e) == True <==> forall i :: 0 <= i < |fs| ==> Value(rules, fs[i], e) == True
    ensures Value(rules, And(fs), e) == False <==> exists i :: 0 <= i < |fs| && Value(rules, fs[i], e) == False
  {
    OperandAt(rules, fs, e, True);
    OperandAt(rules, fs, e, False);
    OperandAt(rules, fs, e, Undefined);
  }

  /** OR is true if some operand is, false if all operands are, and undefined otherwise. */
  lemma OrValue(rules: Rules, fs: seq<Filter>, e: Entry)
    ensures Value(rules, Or(fs), e) == True <==> exists i :: 0 <= i < |fs| && Value(rules, fs[i], e) == True
    ensures Value(rules, Or(fs), e) == False <==> forall i :: 0 <= i < |fs| ==> Value(rules, fs[i], e) == False
  {
    OperandAt(rules, fs, e, True);
    OperandAt(rules, fs, e, False);
    OperandAt(rules, fs, e, Undefined);
  }

  lemma NotValue(rules: Rules, f: Filter, e: Entry)
    ensures Value(rules, Not(f), e) == True <==> Value(rules, f, e) == False
    ensures Value(rules, Not(f), e) == False <==> Value(rules, f, e) == True
  {
  }

  /** A presence test is undefined for unknown attributes, and else true exactly for entries that have a value. */
  lemma PresentValue(rules: Rules, name: string, e: Entry)
    ensures Value(rules, Present(name), e) == Undefined <==> name !in KNOWN_ATTRIBUTES
    ensures Value(rules, Present(name), e) == True <==> name in KNOWN_ATTRIBUTES && name in e && e[name] != []
  {
  }

  lemma EqualityTrue(rules: Rules, name: string, value: string, e: Entry)
    ensures Value(rules, Equality(name, value), e) == Undefined <==> !Comparable(rules, name, value)
    ensures Value(rules, Equality(name, value), e) == True <==>
              Comparable(rules, name, value) && name in e && exists v :: v in e[name] && EqualAttribute(rules, name, v, value)
  {
    hide EqualAttribute, Comparable;
  }

  /** An equality test on a distinguished-name attribute: undefined for a value that is no such name. */
  lemma NameEquality(rules: Rules, name: string, value: string, e: Entry)
    requires name in DN_ATTRIBUTES
    ensures Value(rules, Equality(name, value), e) == Undefined <==> !rules.validDN(value)
    ensures Value(rules, Equality(name, value), e) == True <==>
              rules.validDN(value) && name in e && exists v :: v in e[name] && rules.validDN(v) && rules.sameDN(v, value)
  {
    EqualityTrue(rules, name, value, e);
  }

  /** On an integer attribute it compares numbers, and is undefined for a value that is none. */
  lemma IntegerEquality(rules: Rules, name: string, value: string, e: Entry)
    requires name in INTEGER_ATTRIBUTES
    ensures Value(rules, Equality(name, value), e) == Undefined <==> ParseInt(value).None?
    ensures Value(rules, Equality(name, value), e) == True <==>
              ParseInt(value).Some? && name in e && exists v :: v in e[name] && ParseInt(v) == ParseInt(value)
  {
    hide ParseInt;
    EqualityTrue(rules, name, value, e);
  }

  /** On the other known attributes it compares text up to case; for unknown ones it is undefined. */
  lemma TextEquality(rules: Rules, name: string, value: string, e: Entry)
    requires name !in DN_ATTRIBUTES && name !in INTEGER_ATTRIBUTES
    ensures Value(rules, Equality(name, value), e) == Undefined <==> name !in KNOWN_ATTRIBUTES
    ensures Value(rules, Equality(name, value), e) == True <==>
              name in KNOWN_ATTRIBUTES && name in e && exists v :: v in e[name] && rules.foldEqual(v, value)
  {
    EqualityTrue(rules, name, value, e);
  }

  /** A substring test: undefined for names and numbers, and else true exactly if some value splits into the fragments. */
  lemma SubstringsValue(rules: Rules, name: string, parts: seq<Part>, e: Entry)
    ensures Value(rules, Substrings(name, parts), e) == Undefined <==>
              name !in KNOWN_ATTRIBUTES || name in DN_ATTRIBUTES || name in INTEGER_ATTRIBUTES
    ensures Value(rules, Substrings(name, parts), e) != Undefined ==>
              (Value(rules, Substrings(name, parts), e) == True <==>
                 name in e && exists v :: v in e[name] && Fits(rules.lower(v), LowerParts(rules, parts)))
  {
    hide Fits, LowerParts;
  }

  /** Decimal notation. */
  function Digits(n: nat): (s: string)
    ensures s != "" && forall i :: 0 <= i < |s| ==> '0' <= s[i] <= '9'
  {
    if n < 10 then [(n + '0' as int) as char] else Digits(n / 10) + [(n % 10 + '0' as int) as char]
  }

  lemma {:induction false} DecimalOfDigits(n: nat)
    ensures Decimal(Digits(n)) == n
  {
    var s := Digits(n);
    if n < 10 {
      assert s[..|s| - 1] == "";
    } else {
      DecimalOfDigits(n / 10);
      assert s[..|s| - 1] == Digits(n / 10);
    }
  }

  lemma {:induction false} LeadingZero(s: string)
    requires forall i :: 0 <= i < |s| ==> '0' <= s[i] <= '9'
    ensures Decimal("0" + s) == Decimal(s)
  {
    var z := "0" + s;
    if s == "" {
      assert z[..0] == "" && z[0] == '0';
    } else {
      LeadingZero(s[..|s| - 1]);
      assert z[..|z| - 1] == "0" + s[..|s| - 1];
    }
  }

  lemma Unsigned(s: string)
    requires IsDigits(s)
    ensures ParseInt(s) == if Decimal(s) <= 0x7FFF_FFFF_FFFF_FFFF then Some(Decimal(s)) else None
  {
    hide Decimal;
    assert '0' <= s[0] <= '9';
  }

  lemma Signed(sign: char, s: string)
    requires IsDigits(s) && (sign == '+' || sign == '-')
    ensures var n := if sign == '-' then 0 - Decimal(s) else Decimal(s);
            ParseInt([sign] + s) == if -0x8000_0000_0000_0000 <= n <= 0x7FFF_FFFF_FFFF_FFFF then Some(n) else None
  {
    hide Decimal;
    assert ([sign] + s)[1..] == s;
  }

  lemma ReadsDigits(s: string)
    requires IsDigits(s)
    ensures ParseInt(s) == (if Decimal(s) <= 0x7FFF_FFFF_FFFF_FFFF then Some(Decimal(s)) else None)
    ensures ParseInt("0" + s) == ParseInt(s) == ParseInt("+" + s)
    ensures ParseInt("-" + s) == if Decimal(s) <= 0x8000_0000_0000_0000 then Some(0 - Decimal(s)) else None
  {
    hide Decimal, ParseInt;
    LeadingZero(s);
    Unsigned(s);
    Unsigned("0" + s);
    Signed('+', s);
    Signed('-', s);
  }

  /** The integers that are read are those of 64 bits, in decimal, with or without a sign, leading zeros allowed. */
  lemma ParseIntReads(n: nat)
    ensures ParseInt(Digits(n)) == (if n <= 0x7FFF_FFFF_FFFF_FFFF then Some(n) else None)
    ensures ParseInt("0" + Digits(n)) == ParseInt(Digits(n)) == ParseInt("+" + Digits(n))
    ensures ParseInt("-" + Digits(n)) == if n <= 0x8000_0000_0000_0000 then Some(0 - n) else None
  {
    hide Decimal, Digits, ParseInt;
    DecimalOfDigits(n);
    ReadsDigits(Digits(n));
  }

  // ----- Laws of the logic -----

  lemma SameMembers<T>(a: seq<T>, b: seq<T>, x: T)
    requires multiset(a) == multiset(b)
    ensures x in a <==> x in b
  {
    assert x in a <==> x in multiset(a);
    assert x in b <==> x in multiset(b);
  }

  /** The order of the operands of AND and OR does not matter. */
  lemma OrderIrrelevant(rules: Rules, a: seq<Filter>, b: seq<Filter>, e: Entry)
    requires multiset(a) == multiset(b)
    ensures Value(rules, And(a), e) == Value(rules, And(b), e)
    ensures Value(rules, Or(a), e) == Value(rules, Or(b), e)
  {
    forall v: Match ensures v in Evaluated(rules, a, e) <==> v in Evaluated(rules, b, e) {
      SameValues(rules, a, b, e, v);
      SameValues(rules, b, a, e, v);
    }
  }

  lemma SameValues(rules: Rules, a: seq<Filter>, b: seq<Filter>, e: Entry, v: Match)
    requires multiset(a) == multiset(b)
    ensures v in Evaluated(rules, a, e) ==> v in Evaluated(rules, b, e)
  {
    hide Value;
    if v in Evaluated(rules, a, e) {
      var i :| 0 <= i < |a| && Evaluated(rules, a, e)[i] == v;
      SameMembers(a, b, a[i]);
      var j :| 0 <= j < |b| && b[j] == a[i];
      assert Evaluated(rules, b, e)[j] == v;
    }
  }

  function Negated(fs: seq<Filter>): (r: seq<Filter>)
    ensures |r| == |fs|
  {
    seq(|fs|, i requires 0 <= i < |fs| => Not(fs[i]))
  }

  /** De Morgan's laws hold for undefined values too, and double negation is the identity. */
  lemma DeMorgan(rules: Rules, fs: seq<Filter>, e: Entry)
    ensures Value(rules, Not(And(fs)), e) == Value(rules, Or(Negated(fs)), e)
    ensures Value(rules, Not(Or(fs)), e) == Value(rules, And(Negated(fs)), e)
    ensures forall i :: 0 <= i < |fs| ==> Value(rules, Not(Not(fs[i])), e) == Value(rules, fs[i], e)
  {
    var vs := Evaluated(rules, fs, e);
    var ns := Evaluated(rules, Negated(fs), e);
    forall i | 0 <= i < |fs| ensures ns[i] == Negation(vs[i]) {
      assert ns[i] == Value(rules, Not(fs[i]), e) == Negation(Value(rules, fs[i], e));
    }
    forall v: Match ensures Negation(v) in ns <==> v in vs {
      if v in vs {
        var i :| 0 <= i < |vs| && vs[i] == v;
        assert ns[i] == Negation(v);
      }
      if Negation(v) in ns {
        var i :| 0 <= i < |ns| && ns[i] == Negation(v);
        assert vs[i] == v;
      }
    }
    assert Negation(True) == False && Negation(False) == True && Negation(Undefined) == Undefined;
  }

  /** Two entries that agree on the known attributes cannot be told apart by any filter. */
  lemma {:induction false} UnknownAttributesHidden(rules: Rules, f: Filter, e: Entry, e': Entry)
    requires forall name :: name in KNOWN_ATTRIBUTES ==> Values(e, name) == Values(e', name)
    ensures Value(rules, f, e) == Value(rules, f, e')
    decreases f
  {
    match f
    case And(children) =>
      forall i | 0 <= i < |children| ensures Value(rules, children[i], e) == Value(rules, children[i], e') {
        UnknownAttributesHidden(rules, children[i], e, e');
      }
      SameOperands(rules, children, e, e');
    case Or(children) =>
      forall i | 0 <= i < |children| ensures Value(rules, children[i], e) == Value(rules, children[i], e') {
        UnknownAttributesHidden(rules, children[i], e, e');
      }
      SameOperands(rules, children, e, e');
    case Not(child) => UnknownAttributesHidden(rules, child, e, e');
    case Present(_) =>
    case Equality(name, value) => assert Comparable(rules, name, value) ==> name in KNOWN_ATTRIBUTES;
    case Substrings(name, _) => assert HasSubstrings(name) ==> name in KNOWN_ATTRIBUTES;
  }

  lemma SameOperands(rules: Rules, children: seq<Filter>, e: Entry, e': Entry)
    requires forall i :: 0 <= i < |children| ==> Value(rules, children[i], e) == Value(rules, children[i], e')
    ensures Value(rules, And(children), e) == Value(rules, And(children), e')
    ensures Value(rules, Or(children), e) == Value(rules, Or(children), e')
  {
    assert Evaluated(rules, children, e) == Evaluated(rules, children, e');
  }

  // ----- Compiling -----

  predicate OctetString(p: Packet) {
    p.class_.Universal? && !p.constructed && p.tag == TAG_OCTET_STRING
  }

  predicate PartOk(p: Packet, i: nat, last: nat) {
    p.class_.Context? && !p.constructed && p.tag <= 2 && (p.tag == 0 ==> i == 0) && (p.tag == 2 ==> i == last)
  }

  function PartOf(p: Packet): Part {
    Part(if p.tag == 0 then Initial else if p.tag == 1 then Any else Final, p.data)
  }

  function CompileSubstrings(rules: Rules, p: Packet): Option<Filter> {
    if |p.children| != 2 || !OctetString(p.children[0]) then None
    else
      var list := p.children[1];
      if !(list.class_.Universal? && list.constructed && list.tag == TAG_SEQUENCE) || list.children == [] then None
      else
        var name := rules.lower(p.children[0].data);
        var parts := list.children;
        if name == "" || exists i :: 0 <= i < |parts| && !PartOk(parts[i], i, |parts| - 1) then None
        else Some(Substrings(name, seq(|parts|, i requires 0 <= i < |parts| => PartOf(parts[i]))))
  }

  function CompileAll(rules: Rules, ps: seq<Packet>): (r: Option<seq<Filter>>)
    ensures r.Some? ==> |r.value| == |ps|
    decreases ps
  {
    if ps == [] then Some([])
    else
      var n := |ps| - 1;
      var earlier := CompileAll(rules, ps[..n]);
      var last := Compile(rules, ps[n]);
      if earlier.None? || last.None? then None else Some(earlier.value + [last.value])
  }

  function Compile(rules: Rules, p: Packet): Option<Filter>
    decreases p
  {
    if !p.class_.Context? then None
    else if p.tag == TAG_PRESENT then
      if p.constructed || p.data == "" then None else Some(Present(rules.lower(p.data)))
    else if !p.constructed then None
    else if p.tag == TAG_AND || p.tag == TAG_OR || p.tag == TAG_NOT then
      if p.children == [] || (p.tag == TAG_NOT && |p.children| != 1) then None
      else
        var children := CompileAll(rules, p.children);
        if children.None? then None
        else if p.tag == TAG_AND then Some(And(children.value))
        else if p.tag == TAG_OR then Some(Or(children.value))
        else Some(Not(children.value[0]))
    else if p.tag == TAG_EQUALITY then
      if |p.children| != 2 || !OctetString(p.children[0]) || !OctetString(p.children[1]) then None
      else
        var name := rules.lower(p.children[0].data);
        if name == "" then None else Some(Equality(name, p.children[1].data))
    else if p.tag == TAG_SUBSTRINGS then CompileSubstrings(rules, p)
    else None
  }

  /** Which tag means what: context tags 0, 1 and 2 are AND, OR and NOT, 3 is equality, 4 substrings and 7
      presence; 0, 1 and 2 inside a substring filter are an initial, any and a final fragment. */
  lemma TagMeaning(rules: Rules, ps: seq<Packet>, fs: seq<Filter>, text: string)
    requires CompileAll(rules, ps) == Some(fs) && ps != []
    ensures Compile(rules, Packet(Context, true, 0, "", ps)) == Some(And(fs))
    ensures Compile(rules, Packet(Context, true, 1, "", ps)) == Some(Or(fs))
    ensures |ps| == 1 ==> Compile(rules, Packet(Context, true, 2, "", ps)) == Some(Not(fs[0]))
    ensures text != "" ==> Compile(rules, Packet(Context, false, 7, text, [])) == Some(Present(rules.lower(text)))
  {
  }

  lemma LeafMeaning(rules: Rules, name: string, value: string, text: string, k: nat)
    requires rules.lower(name) != "" && k <= 2
    ensures var n := Packet(Universal, false, 4, name, []);
            && Compile(rules, Packet(Context, true, 3, "", [n, Packet(Universal, false, 4, value, [])])) == Some(Equality(rules.lower(name), value))
            && Compile(rules, Packet(Context, true, 4, "", [n, Packet(Universal, true, 16, "", [Packet(Context, false, k, text, [])])])) ==
                 Some(Substrings(rules.lower(name), [Part(if k == 0 then Initial else if k == 1 then Any else Final, text)]))
  {
    var parts := [Packet(Context, false, k, text, [])];
    assert seq(|parts|, i requires 0 <= i < |parts| => PartOf(parts[i])) == [PartOf(parts[0])];
    assert forall i :: 0 <= i < |parts| ==> PartOk(parts[i], i, 0);
  }

  /** Each operand of a compiled list is compiled on its own. */
  lemma {:induction false} CompileAllAt(rules: Rules, ps: seq<Packet>, i: nat)
    requires i < |ps|
    ensures Compile(rules, ps[i]).None? ==> CompileAll(rules, ps).None?
    ensures CompileAll(rules, ps).Some? ==> Compile(rules, ps[i]) == Some(CompileAll(rules, ps).value[i])
    decreases |ps|
  {
    hide Compile;
    if i < |ps| - 1 {
      CompileAllAt(rules, ps[..|ps| - 1], i);
    }
  }

  /** The substring fragments of a filter stand in an order the request format allows. */
  ghost predicate WellFormed(f: Filter) {
    match f
    case And(children) => forall i :: 0 <= i < |children| ==> WellFormed(children[i])
    case Or(children) => forall i :: 0 <= i < |children| ==> WellFormed(children[i])
    case Not(child) => WellFormed(child)
    case Substrings(_, parts) => Orderly(parts)
    case _ => true
  }

  lemma {:induction false} CompiledWellFormed(rules: Rules, p: Packet)
    requires Compile(rules, p).Some?
    ensures WellFormed(Compile(rules, p).value)
    decreases p
  {
    if p.tag == TAG_AND || p.tag == TAG_OR || p.tag == TAG_NOT {
      forall i | 0 <= i < |p.children|
        ensures Compile(rules, p.children[i]) == Some(CompileAll(rules, p.children).value[i])
        ensures WellFormed(CompileAll(rules, p.children).value[i])
      {
        CompileAllAt(rules, p.children, i);
        CompiledWellFormed(rules, p.children[i]);
      }
    } else if p.tag == TAG_SUBSTRINGS {
      var parts := p.children[1].children;
      assert forall i :: 0 <= i < |parts| ==> PartOk(parts[i], i, |parts| - 1);
    }
  }

  // ----- Writing filters as packets -----

  function Primitive(class_: Class, tag: nat, data: string): Packet {
    Packet(class_, false, tag, data, [])
  }

  function EncodePart(part: Part): Packet {
    Primitive(Context, if part.kind.Initial? then 0 else if part.kind.Any? then 1 else 2, part.text)
  }

  function EncodeAll(fs: seq<Filter>): (ps: seq<Packet>)
    ensures |ps| == |fs|
    decreases fs
  {
    seq(|fs|, i requires 0 <= i < |fs| => Encode(fs[i]))
  }

  function Encode(f: Filter): Packet
    decreases f
  {
    match f
    case Present(name) => Primitive(Context, TAG_PRESENT, name)
    case And(children) => Packet(Context, true, TAG_AND, "", EncodeAll(children))
    case Or(children) => Packet(Context, true, TAG_OR, "", EncodeAll(children))
    case Not(child) => Packet(Context, true, TAG_NOT, "", [Encode(child)])
    case Equality(name, value) =>
      Packet(Context, true, TAG_EQUALITY, "", [Primitive(Universal, TAG_OCTET_STRING, name), Primitive(Universal, TAG_OCTET_STRING, value)])
    case Substrings(name, parts) =>
      var list := seq(|parts|, i requires 0 <= i < |parts| => EncodePart(parts[i]));
      Packet(Context, true, TAG_SUBSTRINGS, "",
             [Primitive(Universal, TAG_OCTET_STRING, name), Packet(Universal, true, TAG_SEQUENCE, "", list)])
  }

  predicate NameOk(rules: Rules, name: string) {
    name != "" && rules.lower(name) == name
  }

  /** What the request format can express. */
  ghost predicate Expressible(rules: Rules, f: Filter) {
    match f
    case Present(name) => NameOk(rules, name)
    case And(children) => children != [] && forall i :: 0 <= i < |children| ==> Expressible(rules, children[i])
    case Or(children) => children != [] && forall i :: 0 <= i < |children| ==> Expressible(rules, children[i])
    case Not(child) => Expressible(rules, child)
    case Equality(name, _) => NameOk(rules, name)
    case Substrings(name, parts) => NameOk(rules, name) && parts != [] && Orderly(parts)
  }

  /** Every expressible filter can be sent, and compiles to itself. */
  lemma {:induction false} EncodeCompile(rules: Rules, f: Filter)
    requires Expressible(rules, f)
    ensures Compile(rules, Encode(f)) == Some(f)
    decreases f, 1
  {
    match f
    case And(children) => EncodeCompileAll(rules, children, |children|);
    case Or(children) => EncodeCompileAll(rules, children, |children|);
    case Not(child) =>
      EncodeCompile(rules, child);
      OneCompiled(rules, Encode(child));
    case Present(_) =>
    case Equality(_, _) =>
    case Substrings(name, parts) => EncodeCompileSubstrings(rules, name, parts);
  }

  lemma OneCompiled(rules: Rules, p: Packet)
    requires Compile(rules, p).Some?
    ensures CompileAll(rules, [p]) == Some([Compile(rules, p).value])
  {
    var ps := [p];
    var none: seq<Packet> := [];
    var n := |ps| - 1;
    assert ps[..n] == none && ps[n] == p;
    var rest: seq<Filter> := [];
    assert CompileAll(rules, none) == Some(rest);
    assert rest + [Compile(rules, p).value] == [Compile(rules, p).value];
    assert CompileAll(rules, ps) == Some(CompileAll(rules, ps[..n]).value + [Compile(rules, ps[n]).value]);
  }

  lemma EncodeCompileSubstrings(rules: Rules, name: string, parts: seq<Part>)
    requires NameOk(rules, name) && parts != [] && Orderly(parts)
    ensures CompileSubstrings(rules, Encode(Substrings(name, parts))) == Some(Substrings(name, parts))
  {
    var list := seq(|parts|, i requires 0 <= i < |parts| => EncodePart(parts[i]));
    assert forall i :: 0 <= i < |parts| ==> PartOf(list[i]) == parts[i] && PartOk(list[i], i, |parts| - 1);
    assert seq(|list|, i requires 0 <= i < |list| => PartOf(list[i])) == parts;
  }

  lemma {:induction false} EncodeCompileAll(rules: Rules, fs: seq<Filter>, n: nat)
    requires n <= |fs| && forall i :: 0 <= i < |fs| ==> Expressible(rules, fs[i])
    ensures CompileAll(rules, EncodeAll(fs)[..n]) == Some(fs[..n])
    ensures n == |fs| ==> CompileAll(rules, EncodeAll(fs)) == Some(fs)
    decreases fs, 0, n
  {
    hide Compile, Encode, Expressible;
    if n > 0 {
      EncodeCompileAll(rules, fs, n - 1);
      EncodeCompile(rules, fs[n - 1]);
      assert EncodeAll(fs)[..n][..n - 1] == EncodeAll(fs)[..n - 1];
      assert fs[..n] == fs[..n - 1] + [fs[n - 1]];
    }
    assert n == |fs| ==> EncodeAll(fs)[..n] == EncodeAll(fs) && fs[..n] == fs;
  }

  // ----- The evaluator -----

  method MatchSubstrings(rules: Rules, value: string, parts: seq<Part>) returns (matched: bool)
    requires Orderly(parts)
    ensures matched <==> Fits(rules.lower(value), LowerParts(rules, parts))
  {
    hide Fits;
    ghost var lowered := LowerParts(rules, parts);
    GreedyDecides(rules.lower(value), lowered);
    var rest := rules.lower(value);
    assert lowered[0..] == lowered;
    for i := 0 to |parts|
      invariant Greedy(rest, lowered[i..]) == Greedy(rules.lower(value), lowered)
    {
      var fragment := rules.lower(parts[i].text);
      assert lowered[i..][0] == Part(parts[i].kind, fragment) && lowered[i..][1..] == lowered[i + 1..];
      match parts[i].kind {
        case Initial =>
          matched := HasPrefix(rest, fragment);
          if matched {
            rest := rest[|fragment|..];
          }
        case Any =>
          var index := Index(rest, fragment);
          matched := index >= 0;
          if matched {
            rest := rest[index + |fragment|..];
          }
        case Final =>
          matched := HasSuffix(rest, fragment);
      }
      if !matched {
        return;
      }
    }
    matched := true;
  }

  method MatchAny(rules: Rules, f: Filter, values: seq<string>) returns (found: bool)
    requires WellFormed(f) && (f.Equality? || f.Substrings?)
    ensures f.Equality? ==> (found <==> exists v :: v in values && EqualAttribute(rules, f.name, v, f.value))
    ensures f.Substrings? ==> (found <==> exists v :: v in values && Fits(rules.lower(v), LowerParts(rules, f.parts)))
  {
    hide Fits, EqualAttribute, LowerParts;
    for i := 0 to |values|
      invariant f.Equality? ==> forall k :: 0 <= k < i ==> !EqualAttribute(rules, f.name, values[k], f.value)
      invariant f.Substrings? ==> forall k :: 0 <= k < i ==> !Fits(rules.lower(values[k]), LowerParts(rules, f.parts))
    {
      if f.Equality? {
        found := EqualAttribute(rules, f.name, values[i], f.value);
      } else {
        found := MatchSubstrings(rules, values[i], f.parts);
      }
      if found {
        return;
      }
    }
    found := false;
  }

  /** The compiled filter, run on an entry: short-circuiting loops that give the Kleene value. */
  method Evaluate(rules: Rules, f: Filter, e: Entry) returns (r: Match)
    requires WellFormed(f)
    ensures r == Value(rules, f, e)
    decreases f, 1
  {
    match f {
      case Present(name) =>
        return if name !in KNOWN_ATTRIBUTES then Undefined else Truth(Values(e, name) != []);
      case And(children) =>
        r := EvaluateAll(rules, children, e, True);
      case Or(children) =>
        r := EvaluateAll(rules, children, e, False);
      case Not(child) =>
        var value := Evaluate(rules, child, e);
        return if value == Undefined then value else Truth(value == False);
      case Equality(name, value) =>
        if !Comparable(rules, name, value) {
          return Undefined;
        }
        var found := MatchAny(rules, f, Values(e, name));
        return Truth(found);
      case Substrings(name, _) =>
        if !HasSubstrings(name) {
          return Undefined;
        }
        var found := MatchAny(rules, f, Values(e, name));
        return Truth(found);
    }
  }

  /** AND when `neutral` is True, OR when it is False. */
  method EvaluateAll(rules: Rules, children: seq<Filter>, e: Entry, neutral: Match) returns (r: Match)
    requires neutral != Undefined && forall i :: 0 <= i < |children| ==> WellFormed(children[i])
    ensures r == if neutral == True then Conjunction(Evaluated(rules, children, e)) else Disjunction(Evaluated(rules, children, e))
    decreases children, 0
  {
    hide WellFormed, Value;
    ghost var vs := Evaluated(rules, children, e);
    var undefined := false;
    for i := 0 to |children|
      invariant Negation(neutral) !in vs[..i]
      invariant undefined <==> Undefined in vs[..i]
    {
      var value := Evaluate(rules, children[i], e);
      assert value == vs[i] && vs[..i + 1] == vs[..i] + [value];
      if value == Negation(neutral) {
        return value;
      }
      undefined := undefined || value == Undefined;
    }
    assert vs[..|children|] == vs;
    return if undefined then Undefined else neutral;
  }

  /** The operands of AND, OR and NOT, stopping at the first that cannot be compiled. */
  method CompileChildren(rules: Rules, ps: seq<Packet>) returns (r: Option<seq<Filter>>)
    ensures r == CompileAll(rules, ps)
    ensures r.Some? ==> forall i :: 0 <= i < |r.value| ==> WellFormed(r.value[i])
    decreases ps, 0
  {
    hide Compile, WellFormed;
    var children: seq<Filter> := [];
    for i := 0 to |ps|
      invariant CompileAll(rules, ps[..i]) == Some(children)
      invariant forall k :: 0 <= k < |children| ==> WellFormed(children[k])
    {
      var child := CompileFilter(rules, ps[i]);
      if child.None? {
        CompileAllAt(rules, ps, i);
        return None;
      }
      assert ps[..i + 1][..i] == ps[..i];
      children := children + [child.value];
    }
    assert ps[..|ps|] == ps;
    return Some(children);
  }

  method CompileFragments(rules: Rules, p: Packet) returns (r: Option<Filter>)
    ensures r == CompileSubstrings(rules, p)
    ensures r.Some? ==> WellFormed(r.value)
  {
    if |p.children| != 2 || !OctetString(p.children[0]) {
      return None;
    }
    var list := p.children[1];
    if !list.class_.Universal? || !list.constructed || list.tag != TAG_SEQUENCE || list.children == [] {
      return None;
    }
    var name := rules.lower(p.children[0].data);
    if name == "" {
      return None;
    }
    var packets := list.children;
    var parts: seq<Part> := [];
    for i := 0 to |packets|
      invariant |parts| == i
      invariant forall k :: 0 <= k < i ==> PartOk(packets[k], k, |packets| - 1) && parts[k] == PartOf(packets[k])
    {
      var part := packets[i];
      if !part.class_.Context? || part.constructed || part.tag > 2 || (part.tag == 0 && i != 0) || (part.tag == 2 && i != |packets| - 1) {
        assert !PartOk(packets[i], i, |packets| - 1);
        return None;
      }
      parts := parts + [PartOf(part)];
    }
    assert parts == seq(|packets|, i requires 0 <= i < |packets| => PartOf(packets[i]));
    return Some(Substrings(name, parts));
  }

  /** From request to filter, one branch per kind of filter; substring fragments come out in an order
      that the matcher can rely on. */
  method CompileFilter(rules: Rules, p: Packet) returns (r: Option<Filter>)
    ensures r == Compile(rules, p)
    ensures r.Some? ==> WellFormed(r.value)
    decreases p
  {
    hide CompileSubstrings;
    if !p.class_.Context? {
      return None;
    }
    if p.tag == TAG_PRESENT {
      if p.constructed || p.data == "" {
        return None;
      }
      return Some(Present(rules.lower(p.data)));
    }
    if !p.constructed {
      return None;
    }
    if p.tag == TAG_AND || p.tag == TAG_OR || p.tag == TAG_NOT {
      if p.children == [] || (p.tag == TAG_NOT && |p.children| != 1) {
        return None;
      }
      var children := CompileChildren(rules, p.children);
      if children.None? {
        return None;
      }
      return Some(if p.tag == TAG_AND then And(children.value) else if p.tag == TAG_OR then Or(children.value) else Not(children.value[0]));
    }
    if p.tag == TAG_EQUALITY {
      if |p.children| != 2 || !OctetString(p.children[0]) || !OctetString(p.children[1]) {
        return None;
      }
      var name := rules.lower(p.children[0].data);
      if name == "" {
        return None;
      }
      return Some(Equality(name, p.children[1].data));
    }
    if p.tag == TAG_SUBSTRINGS {
      r := CompileFragments(rules, p);
      return;
    }
    return None;
  }
}
