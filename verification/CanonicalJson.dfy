/** `canonicalize` and `canonicalJson` of `scripts/evaluate-memory-architecture.ts`, and the
    receipt seal built on them. Strings are sequences of UTF-16 code units, as in the source. */
module CanonicalJson {

  newtype Unit = x: int | 0 <= x < 0x1_0000

  type Text = seq<Unit>

  /** A JSON value as JSON.parse builds it. A number is its Number.prototype.toString spelling, which
      0 and -0 share; one too large for a double, as in 1e400, is infinite. An object lists its own
      properties in enumeration order. */
  datatype Json =
    | Null
    | Bool(value: bool)
    | Number(spelling: Text)
    | NonFinite(negative: bool)
    | String(text: Text)
    | Array(items: seq<Json>)
    | Object(members: seq<Member>)

  datatype Member = Member(key: Text, value: Json)

  /** "__proto__": assigning it on a plain object sets the prototype, not a property. */
  const PROTO: Text := [95, 95, 112, 114, 111, 116, 111, 95, 95]

  predicate DistinctKeys(members: seq<Member>) {
    forall i, j :: 0 <= i < j < |members| ==> members[i].key != members[j].key
  }

  predicate NumberUnit(u: Unit) {
    48 <= u <= 57 || u == 43 || u == 45 || u == 46 || u == 101
  }

  predicate ValidSpelling(s: Text) {
    s != [] && (48 <= s[0] <= 57 || s[0] == 45) && forall i :: 0 <= i < |s| ==> NumberUnit(s[i])
  }

  predicate Valid(j: Json) {
    match j
    case Number(s) => ValidSpelling(s)
    case Array(items) => forall i :: 0 <= i < |items| ==> Valid(items[i])
    case Object(members) =>
      DistinctKeys(members) && forall i :: 0 <= i < |members| ==> Valid(members[i].value)
    case _ => true
  }

  // ---- property order ----

  /** The order of Array.prototype.sort on strings: by code units. */
  predicate Less(a: Text, b: Text) {
    b != [] && (a == [] || a[0] < b[0] || (a[0] == b[0] && Less(a[1..], b[1..])))
  }

  /** The number a key of digits denotes as an array index. */
  function IndexValue(digits: Text): int {
    if digits == [] then 0 else 10 * IndexValue(digits[..|digits| - 1]) + digits[|digits| - 1] as int - 48
  }

  predicate DigitUnits(s: Text) {
    forall i :: 0 <= i < |s| ==> 48 <= s[i] <= 57
  }

  /** Canonical array indices: they enumerate before every other key, in numeric order. */
  predicate IsIndex(key: Text) {
    key != [] && DigitUnits(key) && (|key| == 1 || key[0] != 48) && IndexValue(key) < 0xffff_ffff
  }

  /** The enumeration order of a plain object whose other keys were added in sorted order. */
  predicate Before(a: Text, b: Text) {
    if IsIndex(a) then !IsIndex(b) || IndexValue(a) < IndexValue(b)
    else !IsIndex(b) && Less(a, b)
  }

  lemma {:induction false} LessTotal(a: Text, b: Text)
    ensures a == b || Less(a, b) || Less(b, a)
    ensures !(Less(a, b) && Less(b, a)) && !Less(a, a)
  {
    if a != [] {
      LessTotal(a[1..], a[1..]);
    }
    if a != [] && b != [] {
      LessTotal(a[1..], b[1..]);
      if a[0] == b[0] && a[1..] == b[1..] {
        assert a == [a[0]] + a[1..] && b == [b[0]] + b[1..];
      }
    }
  }

  lemma {:induction false} LessTransitive(a: Text, b: Text, c: Text)
    requires Less(a, b) && Less(b, c)
    ensures Less(a, c)
  {
    if a != [] && a[0] == b[0] == c[0] {
      LessTransitive(a[1..], b[1..], c[1..]);
    }
  }

  lemma {:induction false} IndexValueBounds(s: Text)
    requires s != [] && DigitUnits(s)
    ensures 0 <= IndexValue(s)
    ensures s[0] != 48 ==> 1 <= IndexValue(s)
    ensures |s| == 1 ==> IndexValue(s) < 10
    ensures 1 < |s| && s[0] != 48 ==> 10 <= IndexValue(s)
  {
    if |s| == 1 {
      assert s[..0] == [];
    } else {
      IndexValueBounds(s[..|s| - 1]);
    }
  }

  lemma {:induction false} IndexValueInjective(s: Text, t: Text)
    requires s != [] && DigitUnits(s) && (|s| == 1 || s[0] != 48)
    requires t != [] && DigitUnits(t) && (|t| == 1 || t[0] != 48)
    requires IndexValue(s) == IndexValue(t)
    ensures s == t
  {
    IndexValueBounds(s);
    IndexValueBounds(t);
    var m, n := |s| - 1, |t| - 1;
    if m == 0 {
      assert s[..0] == t[..0] == [];
    } else {
      assert IndexValue(s[..m]) == IndexValue(s) / 10 && s[m] as int - 48 == IndexValue(s) % 10;
      assert IndexValue(t[..n]) == IndexValue(t) / 10 && t[n] as int - 48 == IndexValue(t) % 10;
      IndexValueInjective(s[..m], t[..n]);
      assert s == s[..m] + [s[m]] && t == t[..n] + [t[n]];
    }
  }

  lemma BeforeTotal(a: Text, b: Text)
    ensures a == b || Before(a, b) || Before(b, a)
    ensures !(Before(a, b) && Before(b, a)) && !Before(a, a)
  {
    LessTotal(a, b);
    if IsIndex(a) && IsIndex(b) && IndexValue(a) == IndexValue(b) {
      IndexValueInjective(a, b);
    }
  }

  lemma BeforeTransitive(a: Text, b: Text, c: Text)
    requires Before(a, b) && Before(b, c)
    ensures Before(a, c)
  {
    if !IsIndex(a) {
      LessTransitive(a, b, c);
    }
  }

  // ---- canonicalize ----

  function InsertSorted(members: seq<Member>, m: Member): seq<Member> {
    if members == [] || Less(m.key, members[0].key) then [m] + members
    else [members[0]] + InsertSorted(members[1..], m)
  }

  /** Object.keys(value).sort(), each key with its value. */
  function SortByKey(members: seq<Member>): seq<Member> {
    if members == [] then [] else InsertSorted(SortByKey(members[1..]), members[0])
  }

  /** How far an index key moves forward in an object: past the smaller indices. */
  function Place(members: seq<Member>, m: Member): seq<Member> {
    if members == [] || Before(m.key, members[0].key) then [m] + members
    else [members[0]] + Place(members[1..], m)
  }

  /** result[key] = value on a plain object that does not have the key yet: index keys go to
      their numeric place, other keys to the end, and "__proto__" makes no property. */
  function Assign(members: seq<Member>, m: Member): seq<Member> {
    if m.key == PROTO then members
    else if IsIndex(m.key) then Place(members, m)
    else members + [m]
  }

  function AssignAll(members: seq<Member>, rest: seq<Member>): seq<Member>
    decreases |rest|
  {
    if rest == [] then members else AssignAll(Assign(members, rest[0]), rest[1..])
  }

  function Canonicalize(j: Json): Json {
    match j
    case Array(items) =>
      Array(seq(|items|, i requires 0 <= i < |items| => Canonicalize(items[i])))
    case Object(members) =>
      Object(AssignAll([], SortByKey(
        seq(|members|, i requires 0 <= i < |members| =>
          Member(members[i].key, Canonicalize(members[i].value))))))
    case _ => j
  }

  // ---- the canonical member list ----

  predicate SortedBefore(members: seq<Member>) {
    forall i, j :: 0 <= i < j < |members| ==> Before(members[i].key, members[j].key)
  }

  predicate SortedLess(members: seq<Member>) {
    forall i, j :: 0 <= i < j < |members| ==> Less(members[i].key, members[j].key)
  }

  predicate KeyAbsent(members: seq<Member>, key: Text) {
    forall m :: m in members ==> m.key != key
  }

  lemma {:induction false} InsertSortedMembers(members: seq<Member>, m: Member)
    ensures forall n :: n in InsertSorted(members, m) <==> n == m || n in members
    ensures SortedLess(members) && KeyAbsent(members, m.key) ==> SortedLess(InsertSorted(members, m))
  {
    if members == [] || Less(m.key, members[0].key) {
      if SortedLess(members) {
        var r := [m] + members;
        forall i, j | 0 <= i < j < |r| ensures Less(r[i].key, r[j].key) {
          if i == 0 && 1 < j {
            LessTransitive(m.key, members[0].key, members[j - 1].key);
          }
        }
      }
    } else {
      var tail := InsertSorted(members[1..], m);
      InsertSortedMembers(members[1..], m);
      assert members == [members[0]] + members[1..];
      if SortedLess(members) && KeyAbsent(members, m.key) {
        LessTotal(m.key, members[0].key);
        assert members[0] in members;
        var r := [members[0]] + tail;
        forall j | 0 < j < |r| ensures Less(r[0].key, r[j].key) {
          assert r[j] in tail;
          if r[j] != m {
            var k :| 0 <= k < |members[1..]| && members[1..][k] == r[j];
            assert members[k + 1] == r[j];
          }
        }
      }
    }
  }

  lemma {:induction false} SortByKeyMembers(members: seq<Member>)
    requires DistinctKeys(members)
    ensures forall n :: n in SortByKey(members) <==> n in members
    ensures SortedLess(SortByKey(members))
  {
    if members != [] {
      var tail := members[1..];
      SortByKeyMembers(tail);
      forall n | n in SortByKey(tail) ensures n.key != members[0].key {
        var k :| 0 <= k < |tail| && tail[k] == n;
        assert members[k + 1] == n;
      }
      InsertSortedMembers(SortByKey(tail), members[0]);
      assert members == [members[0]] + tail;
    }
  }

  lemma {:induction false} PlaceMembers(members: seq<Member>, m: Member)
    requires SortedBefore(members) && KeyAbsent(members, m.key)
    ensures forall n :: n in Place(members, m) <==> n == m || n in members
    ensures SortedBefore(Place(members, m))
  {
    if members == [] || Before(m.key, members[0].key) {
      var r := [m] + members;
      forall i, j | 0 <= i < j < |r| ensures Before(r[i].key, r[j].key) {
        if i == 0 && 1 < j {
          BeforeTransitive(m.key, members[0].key, members[j - 1].key);
        }
      }
    } else {
      var tail := Place(members[1..], m);
      assert members == [members[0]] + members[1..] && members[0] in members;
      PlaceMembers(members[1..], m);
      BeforeTotal(m.key, members[0].key);
      var r := [members[0]] + tail;
      forall j | 0 < j < |r| ensures Before(r[0].key, r[j].key) {
        assert r[j] in tail;
        if r[j] != m {
          var k :| 0 <= k < |members[1..]| && members[1..][k] == r[j];
          assert members[k + 1] == r[j];
        }
      }
    }
  }

  predicate AllLess(members: seq<Member>, key: Text) {
    forall m :: m in members ==> Less(m.key, key)
  }

  lemma AssignMembers(members: seq<Member>, m: Member)
    requires SortedBefore(members) && AllLess(members, m.key)
    ensures forall n :: n in Assign(members, m) <==> (n == m && m.key != PROTO) || n in members
    ensures SortedBefore(Assign(members, m))
  {
    LessTotal(m.key, m.key);
    assert KeyAbsent(members, m.key);
    PlaceMembers(members, m);
    if m.key != PROTO && !IsIndex(m.key) {
      var r := members + [m];
      forall i, j | 0 <= i < j < |r| ensures Before(r[i].key, r[j].key) {
        if j == |members| {
          assert members[i] in members;
        }
      }
    }
    hide Place, Less, IsIndex;
  }

  lemma {:induction false} AssignAllMembers(members: seq<Member>, rest: seq<Member>)
    requires SortedBefore(members) && SortedLess(rest)
    requires forall m :: m in rest ==> AllLess(members, m.key)
    ensures forall n :: n in AssignAll(members, rest) <==> n in members || (n in rest && n.key != PROTO)
    ensures SortedBefore(AssignAll(members, rest))
    decreases |rest|
  {
    hide Less, Before, Assign;
    if rest != [] {
      var next := Assign(members, rest[0]);
      assert rest[0] in rest && rest == [rest[0]] + rest[1..];
      AssignMembers(members, rest[0]);
      forall m | m in rest[1..] ensures AllLess(next, m.key) {
        var k :| 0 <= k < |rest[1..]| && rest[1..][k] == m;
        assert rest[k + 1] == m;
        assert m in rest;
      }
      AssignAllMembers(next, rest[1..]);
    }
  }

  function CanonicalMember(m: Member): Member {
    Member(m.key, Canonicalize(m.value))
  }

  /** The members of a canonical object: the canonicalized originals without "__proto__", in
      enumeration order. */
  lemma CanonicalMembers(members: seq<Member>)
    requires DistinctKeys(members)
    ensures Canonicalize(Object(members)).Object?
    ensures var r := Canonicalize(Object(members)).members;
            && SortedBefore(r)
            && forall n :: n in r <==>
                 n.key != PROTO && exists i :: 0 <= i < |members| && n == CanonicalMember(members[i])
  {
    var mapped := Mapped(members);
    MappedMembers(members);
    hide SortByKey, AssignAll, Before, Less, Mapped;
    SortByKeyMembers(mapped);
    AssignAllMembers([], SortByKey(mapped));
  }

  function Mapped(members: seq<Member>): seq<Member> {
    seq(|members|, i requires 0 <= i < |members| =>
      Member(members[i].key, Canonicalize(members[i].value)))
  }

  lemma MappedMembers(members: seq<Member>)
    ensures Canonicalize(Object(members)) == Object(AssignAll([], SortByKey(Mapped(members))))
    ensures DistinctKeys(members) ==> DistinctKeys(Mapped(members))
    ensures forall n :: n in Mapped(members) <==>
      exists i :: 0 <= i < |members| && n == CanonicalMember(members[i])
  {
    var mapped := Mapped(members);
    hide SortByKey, AssignAll;
    assert forall i :: 0 <= i < |members| ==> mapped[i] == CanonicalMember(members[i]);
    forall n | n in mapped ensures exists i :: 0 <= i < |members| && n == CanonicalMember(members[i]) {
      var i :| 0 <= i < |mapped| && mapped[i] == n;
      assert n == CanonicalMember(members[i]);
    }
  }

  lemma SameEmptiness(xs: seq<Member>, ys: seq<Member>)
    requires forall m :: m in xs <==> m in ys
    ensures xs == [] <==> ys == []
  {
    if xs != [] {
      HasElement(xs);
    }
    if ys != [] {
      HasElement(ys);
    }
  }

  lemma HasElement(xs: seq<Member>)
    requires xs != []
    ensures exists m :: m in xs
  {
    assert xs[0] in xs;
  }

  /** Two lists in enumeration order with the same members are the same list. */
  lemma {:induction false} SortedUnique(xs: seq<Member>, ys: seq<Member>)
    requires SortedBefore(xs) && SortedBefore(ys)
    requires forall m :: m in xs <==> m in ys
    ensures xs == ys
  {
    hide Before;
    SameEmptiness(xs, ys);
    if xs != [] {
      assert xs[0] in ys;
      var k :| 0 <= k < |ys| && ys[k] == xs[0];
      assert ys[0] in xs;
      var l :| 0 <= l < |xs| && xs[l] == ys[0];
      BeforeTotal(xs[0].key, ys[0].key);
      assert xs[0] == ys[0];
      TailMembers(xs);
      TailMembers(ys);
      SortedUnique(xs[1..], ys[1..]);
      assert xs == [xs[0]] + xs[1..] && ys == [ys[0]] + ys[1..];
    }
  }

  lemma TailMembers(xs: seq<Member>)
    requires xs != [] && SortedBefore(xs)
    ensures forall m :: m in xs[1..] <==> m in xs && m != xs[0]
    ensures SortedBefore(xs[1..])
  {
    hide Before;
    forall m | m in xs[1..] ensures m != xs[0] {
      var k :| 0 <= k < |xs[1..]| && xs[1..][k] == m;
      assert xs[k + 1] == m;
      BeforeTotal(m.key, m.key);
    }
    assert xs == [xs[0]] + xs[1..];
  }

  lemma SortedAreDistinct(xs: seq<Member>)
    requires SortedBefore(xs)
    ensures DistinctKeys(xs)
  {
    forall i, j | 0 <= i < j < |xs| ensures xs[i].key != xs[j].key {
      BeforeTotal(xs[i].key, xs[j].key);
    }
    hide Before;
  }

  // ---- canonicalize is idempotent ----

  lemma {:induction false} CanonicalizeIdempotent(j: Json)
    requires Valid(j)
    ensures Canonicalize(Canonicalize(j)) == Canonicalize(j)
  {
    match j
    case Array(items) =>
      forall i | 0 <= i < |items| ensures Canonicalize(Canonicalize(items[i])) == Canonicalize(items[i]) {
        CanonicalizeIdempotent(items[i]);
      }
      assert Canonicalize(Canonicalize(j)).items == Canonicalize(j).items;
    case Object(members) =>
      CanonicalMembers(members);
      var once := Canonicalize(j).members;
      SortedAreDistinct(once);
      CanonicalMembers(once);
      var twice := Canonicalize(Object(once)).members;
      hide Canonicalize;
      forall n | n in once ensures CanonicalMember(n) == n {
        var i :| 0 <= i < |members| && n == CanonicalMember(members[i]);
        CanonicalizeIdempotent(members[i].value);
      }
      forall n ensures n in twice <==> n in once {
        if n in once {
          var i :| 0 <= i < |once| && once[i] == n;
          assert n == CanonicalMember(once[i]);
        }
      }
      SortedUnique(twice, once);
    case _ =>
  }

  // ---- canonical forms agree exactly up to key order and "__proto__" ----

  /** Equal up to the order of object keys and, when `lossy`, up to members named "__proto__". */
  ghost predicate Alike(a: Json, b: Json, lossy: bool)
    decreases a
  {
    match (a, b)
    case (Array(xs), Array(ys)) =>
      |xs| == |ys| && forall i :: 0 <= i < |xs| ==> Alike(xs[i], ys[i], lossy)
    case (Object(ms), Object(ns)) =>
      && (forall m :: m in ms && !(lossy && m.key == PROTO) ==> Matched(m, ns, lossy))
      && (forall n :: n in ns && !(lossy && n.key == PROTO) ==> HasKey(ms, n.key))
    case _ => a == b
  }

  ghost predicate Matched(m: Member, ns: seq<Member>, lossy: bool)
    decreases m
  {
    exists n :: n in ns && n.key == m.key && Alike(m.value, n.value, lossy)
  }

  predicate HasKey(ms: seq<Member>, key: Text) {
    exists m :: m in ms && m.key == key
  }

  ghost predicate Equivalent(a: Json, b: Json) {
    Alike(a, b, true)
  }

  /** Equal as JSON values: up to the order of object keys and nothing else. */
  ghost predicate SameValue(a: Json, b: Json) {
    Alike(a, b, false)
  }

  lemma KeyDeterminesMember(ms: seq<Member>, m: Member, n: Member)
    requires DistinctKeys(ms) && m in ms && n in ms && m.key == n.key
    ensures m == n
  {
    var i :| 0 <= i < |ms| && ms[i] == m;
    var j :| 0 <= j < |ms| && ms[j] == n;
  }

  lemma InCanonical(members: seq<Member>, m: Member)
    requires DistinctKeys(members) && m in members && m.key != PROTO
    ensures CanonicalMember(m) in Canonicalize(Object(members)).members
  {
    CanonicalMembers(members);
    var i :| 0 <= i < |members| && members[i] == m;
    assert CanonicalMember(m) == CanonicalMember(members[i]);
    hide Canonicalize;
  }

  lemma FromCanonical(members: seq<Member>, n: Member) returns (m: Member)
    requires DistinctKeys(members) && n in Canonicalize(Object(members)).members
    ensures m in members && m.key != PROTO && n == CanonicalMember(m)
  {
    CanonicalMembers(members);
    hide Canonicalize;
    var i :| 0 <= i < |members| && n == CanonicalMember(members[i]);
    m := members[i];
  }

  lemma {:induction false} EquivalentHaveOneForm(a: Json, b: Json)
    requires Valid(a) && Valid(b) && Equivalent(a, b)
    ensures Canonicalize(a) == Canonicalize(b)
  {
    match (a, b)
    case (Array(xs), Array(ys)) =>
      forall i | 0 <= i < |xs| ensures Canonicalize(xs[i]) == Canonicalize(ys[i]) {
        EquivalentHaveOneForm(xs[i], ys[i]);
      }
      assert Canonicalize(a).items == Canonicalize(b).items;
    case (Object(ms), Object(ns)) =>
      CanonicalMembers(ms);
      CanonicalMembers(ns);
      hide Canonicalize;
      var ca, cb := Canonicalize(a).members, Canonicalize(b).members;
      forall c | c in ca ensures c in cb {
        var m := FromCanonical(ms, c);
        assert Matched(m, ns, true);
        var n :| n in ns && n.key == m.key && Equivalent(m.value, n.value);
        EquivalentHaveOneForm(m.value, n.value);
        InCanonical(ns, n);
      }
      forall c | c in cb ensures c in ca {
        var n := FromCanonical(ns, c);
        assert HasKey(ms, n.key);
        var m :| m in ms && m.key == n.key;
        assert Matched(m, ns, true);
        var n2 :| n2 in ns && n2.key == m.key && Equivalent(m.value, n2.value);
        KeyDeterminesMember(ns, n, n2);
        EquivalentHaveOneForm(m.value, n.value);
        InCanonical(ms, m);
      }
      SortedUnique(ca, cb);
    case _ =>
  }

  lemma KindKept(j: Json)
    ensures Canonicalize(j).Array? == j.Array? && Canonicalize(j).Object? == j.Object?
    ensures !j.Array? && !j.Object? ==> Canonicalize(j) == j
  {
  }

  lemma {:induction false} OneFormIsEquivalent(a: Json, b: Json)
    requires Valid(a) && Valid(b) && Canonicalize(a) == Canonicalize(b)
    ensures Equivalent(a, b)
  {
    KindKept(a);
    KindKept(b);
    match (a, b)
    case (Array(xs), Array(ys)) =>
      var cs := Canonicalize(a).items;
      forall i | 0 <= i < |xs| ensures Equivalent(xs[i], ys[i]) {
        assert cs[i] == Canonicalize(xs[i]) == Canonicalize(ys[i]);
        OneFormIsEquivalent(xs[i], ys[i]);
      }
    case (Object(ms), Object(ns)) =>
      hide Canonicalize;
      forall m | m in ms && m.key != PROTO ensures Matched(m, ns, true) {
        InCanonical(ms, m);
        var n := FromCanonical(ns, CanonicalMember(m));
        OneFormIsEquivalent(m.value, n.value);
      }
      forall n | n in ns && n.key != PROTO ensures HasKey(ms, n.key) {
        InCanonical(ns, n);
        var m := FromCanonical(ms, CanonicalMember(n));
      }
    case _ =>
  }

  // ---- JSON.stringify ----

  const QUOTE: Unit := 34
  const BACKSLASH: Unit := 92
  const COMMA: Unit := 44
  const COLON: Unit := 58

  predicate HighSurrogate(u: Unit) {
    0xd800 <= u <= 0xdbff
  }

  predicate LowSurrogate(u: Unit) {
    0xdc00 <= u <= 0xdfff
  }

  function HexDigit(n: int): Unit
    requires 0 <= n < 16
  {
    if n < 10 then (48 + n) as Unit else (87 + n) as Unit
  }

  function UnicodeEscape(u: Unit): Text {
    var n := u as int;
    [BACKSLASH, 117, HexDigit(n / 16 / 16 / 16), HexDigit(n / 16 / 16 % 16), HexDigit(n / 16 % 16), HexDigit(n % 16)]
  }

  /** One source unit inside a quoted string, when it is not half of a surrogate pair. */
  function EscapedUnit(u: Unit): Text {
    if u == 8 then [BACKSLASH, 98]
    else if u == 9 then [BACKSLASH, 116]
    else if u == 10 then [BACKSLASH, 110]
    else if u == 12 then [BACKSLASH, 102]
    else if u == 13 then [BACKSLASH, 114]
    else if u == QUOTE then [BACKSLASH, QUOTE]
    else if u == BACKSLASH then [BACKSLASH, BACKSLASH]
    else if u < 32 || HighSurrogate(u) || LowSurrogate(u) then UnicodeEscape(u)
    else [u]
  }

  predicate StartsWithPair(s: Text) {
    1 < |s| && HighSurrogate(s[0]) && LowSurrogate(s[1])
  }

  function QuotedBody(s: Text): Text {
    if s == [] then []
    else if StartsWithPair(s) then [s[0], s[1]] + QuotedBody(s[2..])
    else EscapedUnit(s[0]) + QuotedBody(s[1..])
  }

  function PrintItems(items: seq<Json>): Text
    decreases items, 1
  {
    if items == [] then [] else [COMMA] + Print(items[0]) + PrintItems(items[1..])
  }

  function PrintMembers(members: seq<Member>): Text
    decreases members, 1
  {
    if members == [] then []
    else
      [COMMA, QUOTE] + QuotedBody(members[0].key) + [QUOTE, COLON] + Print(members[0].value)
      + PrintMembers(members[1..])
  }

  /** The list printers put a comma before every element; the brackets drop the first. */
  function DropComma(t: Text): Text {
    if t == [] then [] else t[1..]
  }

  function Print(j: Json): Text
    decreases j, 0
  {
    match j
    case Null => [110, 117, 108, 108]
    case NonFinite(_) => [110, 117, 108, 108]
    case Bool(b) => if b then [116, 114, 117, 101] else [102, 97, 108, 115, 101]
    case Number(s) => s
    case String(s) => [QUOTE] + QuotedBody(s) + [QUOTE]
    case Array(items) => [91] + DropComma(PrintItems(items)) + [93]
    case Object(members) => [123] + DropComma(PrintMembers(members)) + [125]
  }

  // ---- printing is unambiguous ----

  lemma Associate(a: Text, b: Text, c: Text)
    ensures (a + b) + c == a + (b + c)
  {
  }

  lemma Cancel(a: Text, x: Text, b: Text, y: Text)
    requires a + x == b + y && |a| == |b|
    ensures a == b && x == y
  {
    assert (a + x)[..|a|] == a && (b + y)[..|b|] == b;
    assert (a + x)[|a|..] == x && (b + y)[|b|..] == y;
  }

  lemma HexDigitInjective(m: int, n: int)
    requires 0 <= m < 16 && 0 <= n < 16 && HexDigit(m) == HexDigit(n)
    ensures m == n
  {
  }

  lemma UnicodeEscapeInjective(u: Unit, v: Unit)
    requires UnicodeEscape(u) == UnicodeEscape(v)
    ensures u == v
  {
    hide HexDigit;
    var m, n := u as int, v as int;
    var x, y := UnicodeEscape(u), UnicodeEscape(v);
    assert x[2] == y[2] && x[3] == y[3] && x[4] == y[4] && x[5] == y[5];
    HexDigitInjective(m / 16 / 16 / 16, n / 16 / 16 / 16);
    HexDigitInjective(m / 16 / 16 % 16, n / 16 / 16 % 16);
    HexDigitInjective(m / 16 % 16, n / 16 % 16);
    HexDigitInjective(m % 16, n % 16);
  }

  /** Escapes are told apart by their first two units, and then have the same length. */
  lemma EscapedUnitUnique(u: Unit, v: Unit, x: Text, y: Text)
    requires EscapedUnit(u) + x == EscapedUnit(v) + y
    ensures u == v && x == y
  {
    var a, b := EscapedUnit(u), EscapedUnit(v);
    assert (a + x)[0] == a[0] && (b + y)[0] == b[0];
    if a[0] == BACKSLASH {
      assert (a + x)[1] == a[1] && (b + y)[1] == b[1];
    }
    assert |a| == |b|;
    Cancel(a, x, b, y);
    if |a| == 6 {
      UnicodeEscapeInjective(u, v);
    }
  }

  lemma PairIsNoEscape(s: Text, v: Unit, x: Text, y: Text)
    requires StartsWithPair(s)
    ensures [s[0], s[1]] + x != EscapedUnit(v) + y
  {
    assert ([s[0], s[1]] + x)[0] == s[0];
    assert (EscapedUnit(v) + y)[0] == EscapedUnit(v)[0];
  }

  lemma QuotedBodyStart(s: Text, x: Text)
    requires s != []
    ensures QuotedBody(s) != [] && (QuotedBody(s) + x)[0] != QUOTE
  {
  }

  /** A quoted string ends at its first unescaped quote and determines what was quoted. */
  lemma {:induction false} QuotedUnique(s: Text, t: Text, r: Text, q: Text)
    requires QuotedBody(s) + ([QUOTE] + r) == QuotedBody(t) + ([QUOTE] + q)
    ensures s == t && r == q
    decreases |s| + |t|
  {
    var x, y := [QUOTE] + r, [QUOTE] + q;
    assert [] + x == x && [] + y == y;
    if s == [] || t == [] {
      assert x[0] == y[0] == QUOTE;
      if s != [] {
        QuotedBodyStart(s, x);
      } else if t != [] {
        QuotedBodyStart(t, y);
      }
      Cancel([QUOTE], r, [QUOTE], q);
    } else {
      QuotedStep(s, x);
      QuotedStep(t, y);
      var m, n := Consumed(s), Consumed(t);
      HeadsUnique(s, t, QuotedBody(s[m..]) + x, QuotedBody(t[n..]) + y);
      QuotedUnique(s[m..], t[n..], r, q);
      assert s == s[..m] + s[m..] && t == t[..n] + t[n..];
    }
  }

  function Consumed(s: Text): nat {
    if StartsWithPair(s) then 2 else 1
  }

  function Head(s: Text): Text
    requires s != []
  {
    if StartsWithPair(s) then [s[0], s[1]] else EscapedUnit(s[0])
  }

  lemma QuotedStep(s: Text, x: Text)
    requires s != []
    ensures QuotedBody(s) + x == Head(s) + (QuotedBody(s[Consumed(s)..]) + x)
  {
    Associate(Head(s), QuotedBody(s[Consumed(s)..]), x);
    hide EscapedUnit;
  }

  lemma HeadsUnique(s: Text, t: Text, x: Text, y: Text)
    requires s != [] && t != [] && Head(s) + x == Head(t) + y
    ensures Consumed(s) == Consumed(t) && s[..Consumed(s)] == t[..Consumed(t)] && x == y
  {
    hide EscapedUnit;
    if StartsWithPair(s) && StartsWithPair(t) {
      Cancel([s[0], s[1]], x, [t[0], t[1]], y);
    } else if StartsWithPair(s) {
      PairIsNoEscape(s, t[0], x, y);
    } else if StartsWithPair(t) {
      PairIsNoEscape(t, s[0], y, x);
    } else {
      EscapedUnitUnique(s[0], t[0], x, y);
    }
  }

  predicate Bounded(r: Text) {
    r == [] || r[0] == COMMA || r[0] == 93 || r[0] == 125
  }

  lemma LongerPart(a: Text, b: Text, x: Text, y: Text)
    requires a + x == b + y && |a| < |b|
    ensures x != [] && x[0] == b[|a|]
  {
    assert (a + x)[|a|] == x[0] && (b + y)[|a|] == b[|a|];
  }

  lemma SpellingUnique(a: Text, b: Text, x: Text, y: Text)
    requires forall i :: 0 <= i < |a| ==> NumberUnit(a[i])
    requires forall i :: 0 <= i < |b| ==> NumberUnit(b[i])
    requires Bounded(x) && Bounded(y) && a + x == b + y
    ensures a == b && x == y
  {
    if |a| < |b| {
      LongerPart(a, b, x, y);
    } else if |b| < |a| {
      LongerPart(b, a, y, x);
    } else {
      Cancel(a, x, b, y);
    }
  }

  datatype Kind = NullKind | TrueKind | FalseKind | NumberKind | StringKind | ArrayKind | ObjectKind | OtherKind

  function KindOf(j: Json): Kind {
    match j
    case Null => NullKind
    case Bool(b) => if b then TrueKind else FalseKind
    case Number(_) => NumberKind
    case NonFinite(_) => NullKind
    case String(_) => StringKind
    case Array(_) => ArrayKind
    case Object(_) => ObjectKind
  }

  function KindOfUnit(u: Unit): Kind {
    if u == 110 then NullKind else if u == 116 then TrueKind else if u == 102 then FalseKind
    else if u == QUOTE then StringKind else if u == 91 then ArrayKind else if u == 123 then ObjectKind
    else if 48 <= u <= 57 || u == 45 then NumberKind else OtherKind
  }

  /** A value without infinite numbers whose numbers are spelled as numbers. */
  predicate Spelled(j: Json) {
    match j
    case NonFinite(_) => false
    case Number(s) => ValidSpelling(s)
    case Array(items) => forall i :: 0 <= i < |items| ==> Spelled(items[i])
    case Object(members) => forall i :: 0 <= i < |members| ==> Spelled(members[i].value)
    case _ => true
  }

  lemma FirstUnit(j: Json, r: Text)
    requires Spelled(j)
    ensures Print(j) + r != [] && KindOfUnit((Print(j) + r)[0]) == KindOf(j)
  {
    hide QuotedBody, PrintItems, PrintMembers, DropComma;
  }

  lemma FirstOfItems(items: seq<Json>, x: Text)
    requires items != [] && Spelled(items[0])
    ensures DropComma(PrintItems(items)) + x != [] && (DropComma(PrintItems(items)) + x)[0] != 93
  {
    hide Print, PrintItems, DropComma, Spelled;
    ItemsLead(items);
    var first, rest := Print(items[0]), PrintItems(items[1..]);
    FirstUnit(items[0], rest + x);
    Associate(first, rest, x);
  }

  lemma ItemsLead(items: seq<Json>)
    requires items != []
    ensures PrintItems(items) == [COMMA] + DropComma(PrintItems(items))
    ensures DropComma(PrintItems(items)) == Print(items[0]) + PrintItems(items[1..])
  {
    var first, rest := Print(items[0]), PrintItems(items[1..]);
    hide Print;
    assert PrintItems(items) == [COMMA] + first + rest;
    Associate([COMMA], first, rest);
  }

  lemma MembersShape(members: seq<Member>, close: Unit, r: Text)
    requires close == 93 || close == 125
    ensures members != [] ==> PrintMembers(members) == [COMMA] + DropComma(PrintMembers(members))
    ensures (DropComma(PrintMembers(members)) + ([close] + r))[0] == close <==> members == []
  {
    if members != [] {
      assert PrintMembers(members)[0] == COMMA && PrintMembers(members)[1] == QUOTE;
    }
  }

  /** Dropping the first comma loses nothing between brackets. */
  lemma RestoreComma(p: Text, q: Text, x: Text, y: Text)
    requires p == [COMMA] + DropComma(p) && q == [COMMA] + DropComma(q)
    requires DropComma(p) + x == DropComma(q) + y
    ensures p + x == q + y
  {
    Associate([COMMA], DropComma(p), x);
    Associate([COMMA], DropComma(q), y);
  }

  lemma {:induction false} SpelledUnique(a: Json, b: Json, r: Text, q: Text)
    requires Spelled(a) && Spelled(b) && Bounded(r) && Bounded(q)
    requires Print(a) + r == Print(b) + q
    ensures a == b && r == q
    decreases a, 0
  {
    FirstUnit(a, r);
    FirstUnit(b, q);
    assert KindOf(a) == KindOf(b);
    match (a, b)
    case (Number(s), Number(t)) =>
      SpellingUnique(s, t, r, q);
    case (String(s), String(t)) =>
      StringUnique(s, t, r, q);
    case (Array(xs), Array(ys)) =>
      ArrayUnique(xs, ys, r, q);
    case (Object(ms), Object(ns)) =>
      ObjectUnique(ms, ns, r, q);
    case _ =>
      Cancel(Print(a), r, Print(b), q);
  }

  lemma {:induction false} ArrayUnique(xs: seq<Json>, ys: seq<Json>, r: Text, q: Text)
    requires (forall i :: 0 <= i < |xs| ==> Spelled(xs[i])) && (forall i :: 0 <= i < |ys| ==> Spelled(ys[i]))
    requires Print(Array(xs)) + r == Print(Array(ys)) + q
    ensures xs == ys && r == q
    decreases xs, 2
  {
    var p, o := DropComma(PrintItems(xs)), DropComma(PrintItems(ys));
    var x, y := [93] + r, [93] + q;
    Bracketed(91, p, 93, r);
    Bracketed(91, o, 93, q);
    hide Print;
    Cancel([91], p + x, [91], o + y);
    assert [] + x == x && [] + y == y;
    assert x[0] == y[0] == 93;
    if xs == [] && ys != [] {
      FirstOfItems(ys, y);
    } else if xs != [] && ys == [] {
      FirstOfItems(xs, x);
    } else if xs != [] {
      hide PrintItems, DropComma;
      ItemsLead(xs);
      ItemsLead(ys);
      RestoreComma(PrintItems(xs), PrintItems(ys), x, y);
      ItemsUnique(xs, ys, x, y);
    }
    Cancel([93], r, [93], q);
  }

  lemma {:induction false} ObjectUnique(ms: seq<Member>, ns: seq<Member>, r: Text, q: Text)
    requires (forall i :: 0 <= i < |ms| ==> Spelled(ms[i].value))
    requires (forall i :: 0 <= i < |ns| ==> Spelled(ns[i].value))
    requires Print(Object(ms)) + r == Print(Object(ns)) + q
    ensures ms == ns && r == q
    decreases ms, 2
  {
    var p, o := DropComma(PrintMembers(ms)), DropComma(PrintMembers(ns));
    var x, y := [125] + r, [125] + q;
    Bracketed(123, p, 125, r);
    Bracketed(123, o, 125, q);
    hide Print;
    Cancel([123], p + x, [123], o + y);
    MembersShape(ms, 125, r);
    MembersShape(ns, 125, q);
    if ms != [] {
      hide PrintMembers, DropComma;
      RestoreComma(PrintMembers(ms), PrintMembers(ns), x, y);
      MembersUnique(ms, ns, x, y);
    } else {
      assert [] + x == x && [] + y == y;
    }
    Cancel([125], r, [125], q);
  }

  lemma Bracketed(open: Unit, body: Text, close: Unit, r: Text)
    ensures ([open] + body + [close]) + r == [open] + (body + ([close] + r))
  {
  }

  lemma StringUnique(s: Text, t: Text, r: Text, q: Text)
    requires Print(String(s)) + r == Print(String(t)) + q
    ensures s == t && r == q
  {
    Bracketed(QUOTE, QuotedBody(s), QUOTE, r);
    Bracketed(QUOTE, QuotedBody(t), QUOTE, q);
    Cancel([QUOTE], QuotedBody(s) + ([QUOTE] + r), [QUOTE], QuotedBody(t) + ([QUOTE] + q));
    QuotedUnique(s, t, r, q);
  }

  predicate Closing(r: Text) {
    r != [] && (r[0] == 93 || r[0] == 125)
  }

  lemma {:induction false} ItemsUnique(xs: seq<Json>, ys: seq<Json>, r: Text, q: Text)
    requires (forall i :: 0 <= i < |xs| ==> Spelled(xs[i])) && (forall i :: 0 <= i < |ys| ==> Spelled(ys[i]))
    requires Closing(r) && Closing(q)
    requires PrintItems(xs) + r == PrintItems(ys) + q
    ensures xs == ys && r == q
    decreases xs, 1
  {
    assert [] + r == r && [] + q == q;
    assert (PrintItems(xs) + r)[0] == if xs == [] then r[0] else COMMA;
    assert (PrintItems(ys) + q)[0] == if ys == [] then q[0] else COMMA;
    if xs != [] {
      var restX, restY := PrintItems(xs[1..]) + r, PrintItems(ys[1..]) + q;
      ItemStep(xs, r);
      ItemStep(ys, q);
      Cancel([COMMA], Print(xs[0]) + restX, [COMMA], Print(ys[0]) + restY);
      SpelledUnique(xs[0], ys[0], restX, restY);
      ItemsUnique(xs[1..], ys[1..], r, q);
      assert xs == [xs[0]] + xs[1..] && ys == [ys[0]] + ys[1..];
    }
    hide Print;
  }

  lemma ItemStep(xs: seq<Json>, r: Text)
    requires xs != [] && Closing(r)
    ensures PrintItems(xs) + r == [COMMA] + (Print(xs[0]) + (PrintItems(xs[1..]) + r))
    ensures Bounded(PrintItems(xs[1..]) + r)
  {
    hide Print;
  }

  lemma AssociateFive(a: Text, b: Text, c: Text, d: Text, m: Text, r: Text)
    ensures (a + b + c + d + m) + r == a + (b + (c + (d + (m + r))))
  {
    Associate(a + b + c + d, m, r);
    Associate(a + b + c, d, m + r);
    Associate(a + b, c, d + (m + r));
    Associate(a, b, c + (d + (m + r)));
  }

  lemma MemberStep(ms: seq<Member>, r: Text)
    requires ms != [] && Closing(r)
    ensures PrintMembers(ms) + r == [COMMA, QUOTE] + (QuotedBody(ms[0].key) + ([QUOTE] +
              ([COLON] + (Print(ms[0].value) + (PrintMembers(ms[1..]) + r)))))
    ensures Bounded(PrintMembers(ms[1..]) + r)
  {
    var body, value, rest := QuotedBody(ms[0].key), Print(ms[0].value), PrintMembers(ms[1..]);
    assert PrintMembers(ms) == [COMMA, QUOTE] + body + [QUOTE, COLON] + value + rest;
    assert [QUOTE, COLON] == [QUOTE] + [COLON];
    MembersHead(ms[1..], r);
    hide Print, QuotedBody, PrintMembers;
    AssociateFive([COMMA, QUOTE], body, [QUOTE, COLON], value, rest, r);
    Associate([QUOTE], [COLON], value + (rest + r));
  }

  lemma MembersHead(ms: seq<Member>, r: Text)
    requires Closing(r)
    ensures ms == [] ==> PrintMembers(ms) + r == r
    ensures (PrintMembers(ms) + r)[..1] == [if ms == [] then r[0] else COMMA]
  {
    assert [] + r == r;
  }

  lemma {:induction false} MembersUnique(ms: seq<Member>, ns: seq<Member>, r: Text, q: Text)
    requires (forall i :: 0 <= i < |ms| ==> Spelled(ms[i].value))
    requires (forall i :: 0 <= i < |ns| ==> Spelled(ns[i].value))
    requires Closing(r) && Closing(q)
    requires PrintMembers(ms) + r == PrintMembers(ns) + q
    ensures ms == ns && r == q
    decreases ms, 1
  {
    hide Print, QuotedBody, PrintMembers;
    MembersHead(ms, r);
    MembersHead(ns, q);
    if ms != [] {
      MemberStep(ms, r);
      MemberStep(ns, q);
      var restM, restN := PrintMembers(ms[1..]) + r, PrintMembers(ns[1..]) + q;
      var valueM, valueN := Print(ms[0].value) + restM, Print(ns[0].value) + restN;
      Cancel([COMMA, QUOTE], QuotedBody(ms[0].key) + ([QUOTE] + ([COLON] + valueM)),
             [COMMA, QUOTE], QuotedBody(ns[0].key) + ([QUOTE] + ([COLON] + valueN)));
      QuotedUnique(ms[0].key, ns[0].key, [COLON] + valueM, [COLON] + valueN);
      Cancel([COLON], valueM, [COLON], valueN);
      SpelledUnique(ms[0].value, ns[0].value, restM, restN);
      MembersUnique(ms[1..], ns[1..], r, q);
      assert ms == [ms[0]] + ms[1..] && ns == [ns[0]] + ns[1..];
    }
  }

  // ---- what the text says ----

  /** The value that the text spells: JSON.stringify writes null for an infinite number. */
  function Written(j: Json): Json
    decreases j, 0
  {
    match j
    case NonFinite(_) => Null
    case Array(items) => Array(WrittenItems(items))
    case Object(members) => Object(WrittenMembers(members))
    case _ => j
  }

  function WrittenItems(items: seq<Json>): (r: seq<Json>)
    ensures |r| == |items|
    decreases items, 1
  {
    seq(|items|, i requires 0 <= i < |items| => Written(items[i]))
  }

  function WrittenMembers(members: seq<Member>): (r: seq<Member>)
    ensures |r| == |members|
    decreases members, 1
  {
    seq(|members|, i requires 0 <= i < |members| => Member(members[i].key, Written(members[i].value)))
  }

  predicate Finite(j: Json) {
    match j
    case NonFinite(_) => false
    case Array(items) => forall i :: 0 <= i < |items| ==> Finite(items[i])
    case Object(members) => forall i :: 0 <= i < |members| ==> Finite(members[i].value)
    case _ => true
  }

  lemma {:induction false} WrittenIsSpelled(j: Json)
    requires Valid(j)
    ensures Valid(Written(j)) && Spelled(Written(j)) && Finite(Written(j))
  {
    match j
    case Array(items) =>
      forall i | 0 <= i < |items|
        ensures Valid(Written(items[i])) && Spelled(Written(items[i])) && Finite(Written(items[i]))
      {
        WrittenIsSpelled(items[i]);
      }
    case Object(members) =>
      forall i | 0 <= i < |members|
        ensures Valid(Written(members[i].value)) && Spelled(Written(members[i].value))
        ensures Finite(Written(members[i].value))
      {
        WrittenIsSpelled(members[i].value);
      }
    case _ =>
  }

  lemma {:induction false} FiniteIsWritten(j: Json)
    requires Finite(j)
    ensures Written(j) == j
  {
    match j
    case Array(items) =>
      forall i | 0 <= i < |items| ensures Written(items[i]) == items[i] {
        FiniteIsWritten(items[i]);
      }
      assert WrittenItems(items) == items;
    case Object(members) =>
      forall i | 0 <= i < |members| ensures Written(members[i].value) == members[i].value {
        FiniteIsWritten(members[i].value);
      }
      assert WrittenMembers(members) == members;
    case _ =>
  }

  lemma {:induction false} WrittenPrintsAlike(j: Json)
    ensures Print(Written(j)) == Print(j)
    decreases j, 0
  {
    match j
    case Array(items) =>
      WrittenItemsPrintAlike(items);
    case Object(members) =>
      WrittenMembersPrintAlike(members);
    case _ =>
  }

  lemma {:induction false} WrittenItemsPrintAlike(items: seq<Json>)
    ensures PrintItems(WrittenItems(items)) == PrintItems(items)
    decreases items, 1
  {
    hide Written, Print;
    if items != [] {
      WrittenPrintsAlike(items[0]);
      WrittenItemsPrintAlike(items[1..]);
      assert WrittenItems(items)[1..] == WrittenItems(items[1..]);
    }
  }

  lemma {:induction false} WrittenMembersPrintAlike(members: seq<Member>)
    ensures PrintMembers(WrittenMembers(members)) == PrintMembers(members)
    decreases members, 1
  {
    hide Written, Print, QuotedBody;
    if members != [] {
      WrittenPrintsAlike(members[0].value);
      WrittenMembersPrintAlike(members[1..]);
      assert WrittenMembers(members)[1..] == WrittenMembers(members[1..]);
    }
  }

  /** A printed value followed by a separator or closer determines what was written and what follows. */
  lemma PrintUnique(a: Json, b: Json, r: Text, q: Text)
    requires Valid(a) && Valid(b) && Bounded(r) && Bounded(q)
    requires Print(a) + r == Print(b) + q
    ensures Written(a) == Written(b) && r == q
  {
    hide Print, Written, Valid, Spelled;
    WrittenIsSpelled(a);
    WrittenIsSpelled(b);
    WrittenPrintsAlike(a);
    WrittenPrintsAlike(b);
    SpelledUnique(Written(a), Written(b), r, q);
  }

  // ---- canonicalJson ----

  function CanonicalText(j: Json): Text {
    Print(Canonicalize(j))
  }

  lemma {:induction false} CanonicalizeValid(j: Json)
    requires Valid(j)
    ensures Valid(Canonicalize(j))
  {
    match j
    case Array(items) =>
      var cs := Canonicalize(j).items;
      forall i | 0 <= i < |cs| ensures Valid(cs[i]) {
        CanonicalizeValid(items[i]);
      }
    case Object(members) =>
      CanonicalMembers(members);
      var cs := Canonicalize(j).members;
      SortedAreDistinct(cs);
      hide Canonicalize;
      forall i | 0 <= i < |cs| ensures Valid(cs[i].value) {
        var m := FromCanonical(members, cs[i]);
        CanonicalizeValid(m.value);
      }
    case _ =>
  }

  /** Canonicalizing and writing commute. */
  lemma {:induction false} CanonicalizeWritten(j: Json)
    requires Valid(j)
    ensures Canonicalize(Written(j)) == Written(Canonicalize(j))
  {
    match j
    case Array(items) =>
      forall i | 0 <= i < |items| ensures Canonicalize(Written(items[i])) == Written(Canonicalize(items[i])) {
        CanonicalizeWritten(items[i]);
      }
      assert Canonicalize(Written(j)).items == Written(Canonicalize(j)).items;
    case Object(members) =>
      forall i | 0 <= i < |members|
        ensures Canonicalize(Written(members[i].value)) == Written(Canonicalize(members[i].value))
      {
        CanonicalizeWritten(members[i].value);
      }
      CanonicalWrittenMembers(members);
    case _ =>
  }

  function WrittenMember(m: Member): Member {
    Member(m.key, Written(m.value))
  }

  lemma WrittenAreDistinct(members: seq<Member>)
    requires DistinctKeys(members)
    ensures DistinctKeys(WrittenMembers(members))
  {
    hide Written;
    var r := WrittenMembers(members);
    forall i, j | 0 <= i < j < |r| ensures r[i].key != r[j].key {
      assert members[i].key != members[j].key;
    }
  }

  lemma InWritten(members: seq<Member>, n: Member)
    ensures n in WrittenMembers(members) <==> exists m :: m in members && n == WrittenMember(m)
  {
    hide Written;
    var r := WrittenMembers(members);
    assert forall i :: 0 <= i < |r| ==> r[i] == WrittenMember(members[i]);
    if m :| m in members && n == WrittenMember(m) {
      var i :| 0 <= i < |members| && members[i] == m;
      assert r[i] == n;
    }
  }

  lemma WrittenStaySorted(members: seq<Member>)
    requires SortedBefore(members)
    ensures SortedBefore(WrittenMembers(members))
  {
    hide Written, Before;
    var r := WrittenMembers(members);
    forall i, j | 0 <= i < j < |r| ensures Before(r[i].key, r[j].key) {
      assert Before(members[i].key, members[j].key);
    }
  }

  lemma CanonicalWrittenMembers(members: seq<Member>)
    requires DistinctKeys(members)
    requires forall i :: 0 <= i < |members| ==>
      Canonicalize(Written(members[i].value)) == Written(Canonicalize(members[i].value))
    ensures Canonicalize(Object(WrittenMembers(members))) == Written(Canonicalize(Object(members)))
  {
    CanonicalMembers(members);
    WrittenAreDistinct(members);
    CanonicalMembers(WrittenMembers(members));
    var mine := Canonicalize(Object(WrittenMembers(members))).members;
    var plain := Canonicalize(Object(members)).members;
    WrittenStaySorted(plain);
    forall c
      ensures c in mine <==> c in WrittenMembers(plain)
    {
      InBoth(members, c);
    }
    hide Canonicalize, Before;
    SortedUnique(mine, WrittenMembers(plain));
    assert Written(Object(plain)) == Object(WrittenMembers(plain));
  }

  lemma InBoth(members: seq<Member>, c: Member)
    requires DistinctKeys(members) && DistinctKeys(WrittenMembers(members))
    requires forall i :: 0 <= i < |members| ==>
      Canonicalize(Written(members[i].value)) == Written(Canonicalize(members[i].value))
    requires Canonicalize(Object(members)).Object? && Canonicalize(Object(WrittenMembers(members))).Object?
    ensures c in Canonicalize(Object(WrittenMembers(members))).members
      <==> c in WrittenMembers(Canonicalize(Object(members)).members)
  {
    hide Canonicalize, Written, WrittenMembers, DistinctKeys;
    var mine := Canonicalize(Object(WrittenMembers(members))).members;
    var plain := Canonicalize(Object(members)).members;
    InWritten(plain, c);
    if c in mine {
      var n := FromCanonical(WrittenMembers(members), c);
      InWritten(members, n);
      var m :| m in members && n == WrittenMember(m);
      InCanonical(members, m);
      assert c == WrittenMember(CanonicalMember(m));
    }
    if c in WrittenMembers(plain) {
      var d :| d in plain && c == WrittenMember(d);
      var m := FromCanonical(members, d);
      InWritten(members, WrittenMember(m));
      InCanonical(WrittenMembers(members), WrittenMember(m));
    }
  }

  /** Two values print alike exactly when what is written of them differs only in key order and
      "__proto__" members. */
  lemma CanonicalTextIffEquivalent(a: Json, b: Json)
    requires Valid(a) && Valid(b)
    ensures CanonicalText(a) == CanonicalText(b) <==> Equivalent(Written(a), Written(b))
  {
    hide Print, Canonicalize, Equivalent, Written, Valid, Finite, Spelled;
    CanonicalizeValid(a);
    CanonicalizeValid(b);
    CanonicalizeWritten(a);
    CanonicalizeWritten(b);
    WrittenIsSpelled(a);
    WrittenIsSpelled(b);
    if CanonicalText(a) == CanonicalText(b) {
      PrintUnique(Canonicalize(a), Canonicalize(b), [], []);
      OneFormIsEquivalent(Written(a), Written(b));
    }
    if Equivalent(Written(a), Written(b)) {
      EquivalentHaveOneForm(Written(a), Written(b));
      WrittenPrintsAlike(Canonicalize(a));
      WrittenPrintsAlike(Canonicalize(b));
    }
  }

  predicate ProtoFree(j: Json) {
    match j
    case Array(items) => forall i :: 0 <= i < |items| ==> ProtoFree(items[i])
    case Object(members) =>
      forall i :: 0 <= i < |members| ==> members[i].key != PROTO && ProtoFree(members[i].value)
    case _ => true
  }

  lemma {:induction false} ProtoFreeEquivalence(a: Json, b: Json)
    requires ProtoFree(a) && ProtoFree(b)
    ensures Equivalent(a, b) <==> SameValue(a, b)
    decreases a
  {
    match (a, b)
    case (Array(xs), Array(ys)) =>
      if |xs| == |ys| {
        forall i | 0 <= i < |xs| ensures Equivalent(xs[i], ys[i]) <==> SameValue(xs[i], ys[i]) {
          ProtoFreeEquivalence(xs[i], ys[i]);
        }
      }
    case (Object(ms), Object(ns)) =>
      forall m | m in ms ensures m.key != PROTO && (Matched(m, ns, true) <==> Matched(m, ns, false)) {
        ProtoFreeMatch(m, ns);
      }
      assert forall n :: n in ns ==> n.key != PROTO;
      hide Matched, ProtoFree;
    case _ =>
  }

  lemma {:induction false} ProtoFreeMatch(m: Member, ns: seq<Member>)
    requires ProtoFree(m.value) && ProtoFree(Object(ns))
    ensures Matched(m, ns, true) <==> Matched(m, ns, false)
    decreases m
  {
    forall n | n in ns ensures Alike(m.value, n.value, true) <==> Alike(m.value, n.value, false) {
      ProtoFreeEquivalence(m.value, n.value);
    }
    hide Alike, ProtoFree;
  }

  /** What the canonical text is for: without a "__proto__" key or an infinite number anywhere, equal
      text means equal value. */
  lemma CanonicalTextIffSameValue(a: Json, b: Json)
    requires Valid(a) && Valid(b) && ProtoFree(a) && ProtoFree(b) && Finite(a) && Finite(b)
    ensures CanonicalText(a) == CanonicalText(b) <==> SameValue(a, b)
  {
    CanonicalTextIffEquivalent(a, b);
    FiniteIsWritten(a);
    FiniteIsWritten(b);
    ProtoFreeEquivalence(a, b);
    hide CanonicalText, Equivalent, SameValue;
  }

  lemma {:induction false} CanonicalIsProtoFree(j: Json)
    requires Valid(j)
    ensures ProtoFree(Canonicalize(j))
  {
    match j
    case Array(items) =>
      var cs := Canonicalize(j).items;
      forall i | 0 <= i < |cs| ensures ProtoFree(cs[i]) {
        CanonicalIsProtoFree(items[i]);
      }
    case Object(members) =>
      CanonicalMembers(members);
      var cs := Canonicalize(j).members;
      hide Canonicalize;
      forall i | 0 <= i < |cs| ensures cs[i].key != PROTO && ProtoFree(cs[i].value) {
        assert cs[i] in cs;
        var m := FromCanonical(members, cs[i]);
        CanonicalIsProtoFree(m.value);
      }
    case _ =>
  }

  lemma {:induction false} KeptOnlyIfProtoFree(j: Json)
    requires Valid(j) && SameValue(j, Canonicalize(j))
    ensures ProtoFree(j)
  {
    match j
    case Array(items) =>
      forall i | 0 <= i < |items| ensures ProtoFree(items[i]) {
        assert Canonicalize(j).items[i] == Canonicalize(items[i]);
        KeptOnlyIfProtoFree(items[i]);
      }
    case Object(members) =>
      KindKept(j);
      var cs := Canonicalize(j).members;
      forall i | 0 <= i < |members| ensures members[i].key != PROTO && ProtoFree(members[i].value) {
        assert members[i] in members && Matched(members[i], cs, false);
        KeptMember(members, members[i]);
        KeptOnlyIfProtoFree(members[i].value);
      }
    case _ =>
  }

  /** A member that the canonical object matches is not "__proto__" and kept its value. */
  lemma KeptMember(members: seq<Member>, m: Member)
    requires Valid(Object(members)) && m in members
    requires Canonicalize(Object(members)).Object?
    requires Matched(m, Canonicalize(Object(members)).members, false)
    ensures m.key != PROTO && SameValue(m.value, Canonicalize(m.value))
  {
    hide Canonicalize, Alike, Valid;
    var cs := Canonicalize(Object(members)).members;
    var n :| n in cs && n.key == m.key && Alike(m.value, n.value, false);
    ValidIsDistinct(members);
    var origin := FromCanonical(members, n);
    KeyDeterminesMember(members, m, origin);
  }

  lemma ValidIsDistinct(members: seq<Member>)
    requires Valid(Object(members))
    ensures DistinctKeys(members)
  {
  }

  /** Canonicalizing keeps a value, up to key order, exactly when no object in it owns "__proto__". */
  lemma CanonicalizeKeepsExactly(j: Json)
    requires Valid(j)
    ensures SameValue(j, Canonicalize(j)) <==> ProtoFree(j)
  {
    hide Canonicalize, Alike, ProtoFree, Print, Valid;
    CanonicalIsProtoFree(j);
    CanonicalizeValid(j);
    if ProtoFree(j) {
      CanonicalizeIdempotent(j);
      OneFormIsEquivalent(j, Canonicalize(j));
      ProtoFreeEquivalence(j, Canonicalize(j));
    }
    if SameValue(j, Canonicalize(j)) {
      KeptOnlyIfProtoFree(j);
    }
  }

  /** With one it does not: an object that owns "__proto__" prints as the object without it. */
  lemma ProtoIsLost(value: Json)
    requires Valid(value)
    ensures CanonicalText(Object([Member(PROTO, value)])) == CanonicalText(Object([]))
    ensures !SameValue(Object([Member(PROTO, value)]), Object([]))
  {
    var with := [Member(PROTO, value)];
    assert Valid(Object(with)) && Valid(Object([]));
    hide CanonicalText, Written, Valid;
    WrittenObject(with);
    WrittenObject([]);
    assert WrittenMembers(with) == [Member(PROTO, Written(value))] && WrittenMembers([]) == [];
    CanonicalTextIffEquivalent(Object(with), Object([]));
    assert with[0] in with && !Matched(with[0], [], false);
  }

  // ---- prettyJson ----

  const NEWLINE: Unit := 10
  const SPACE: Unit := 32

  function NewLine(indent: nat): Text {
    [NEWLINE] + seq(indent, i => SPACE)
  }

  function PrettyItems(items: seq<Json>, indent: nat): Text
    decreases items, 1
  {
    if items == [] then []
    else [COMMA] + (NewLine(indent) + (Pretty(items[0], indent) + PrettyItems(items[1..], indent)))
  }

  function PrettyMembers(members: seq<Member>, indent: nat): Text
    decreases members, 1
  {
    if members == [] then []
    else
      [COMMA] + (NewLine(indent) + (([QUOTE] + QuotedBody(members[0].key) + [QUOTE]) + ([COLON] + ([SPACE]
      + (Pretty(members[0].value, indent) + PrettyMembers(members[1..], indent))))))
  }

  /** JSON.stringify(j, null, 2): elements on lines of their own, two further spaces in. */
  function Pretty(j: Json, indent: nat): Text
    decreases j, 0
  {
    match j
    case Array(items) =>
      if items == [] then [91, 93]
      else [91] + (DropComma(PrettyItems(items, indent + 2)) + (NewLine(indent) + [93]))
    case Object(members) =>
      if members == [] then [123, 125]
      else [123] + (DropComma(PrettyMembers(members, indent + 2)) + (NewLine(indent) + [125]))
    case _ => Print(j)
  }

  function PrettyJson(j: Json): Text {
    Pretty(Canonicalize(j), 0) + [NEWLINE]
  }

  predicate Blank(u: Unit) {
    u == SPACE || 9 <= u <= 10 || u == 13
  }

  /** The text without the white space outside its strings, which JSON.parse skips. */
  function Minify(t: Text, quoted: bool): Text {
    if t == [] then []
    else if quoted then
      if t[0] == BACKSLASH && |t| > 1 then t[..2] + Minify(t[2..], true)
      else [t[0]] + Minify(t[1..], t[0] != QUOTE)
    else (if Blank(t[0]) then [] else [t[0]]) + Minify(t[1..], t[0] == QUOTE)
  }

  predicate Solid(a: Text) {
    forall i :: 0 <= i < |a| ==> !Blank(a[i]) && a[i] != QUOTE
  }

  lemma {:induction false} MinifySolid(a: Text, r: Text)
    requires Solid(a)
    ensures Minify(a + r, false) == a + Minify(r, false)
  {
    if a == [] {
      assert a + r == r && a + Minify(r, false) == Minify(r, false);
    } else {
      assert (a + r)[1..] == a[1..] + r;
      MinifySolid(a[1..], r);
      Associate([a[0]], a[1..], Minify(r, false));
      assert a == [a[0]] + a[1..];
    }
  }

  lemma {:induction false} MinifyBlank(a: Text, r: Text)
    requires forall i :: 0 <= i < |a| ==> Blank(a[i])
    ensures Minify(a + r, false) == Minify(r, false)
  {
    if a == [] {
      assert a + r == r;
    } else {
      assert (a + r)[1..] == a[1..] + r && a[0] != QUOTE;
      MinifyBlank(a[1..], r);
      assert [] + Minify(r, false) == Minify(r, false);
    }
  }

  lemma {:induction false} MinifyUnits(a: Text, r: Text)
    requires forall i :: 0 <= i < |a| ==> a[i] != QUOTE && a[i] != BACKSLASH
    ensures Minify(a + r, true) == a + Minify(r, true)
  {
    if a == [] {
      assert a + r == r && a + Minify(r, true) == Minify(r, true);
    } else {
      assert (a + r)[1..] == a[1..] + r;
      MinifyUnits(a[1..], r);
      Associate([a[0]], a[1..], Minify(r, true));
      assert a == [a[0]] + a[1..];
    }
  }

  lemma EscapeShape(u: Unit)
    ensures var e := EscapedUnit(u);
      if e[0] == BACKSLASH then |e| >= 2 && forall i :: 2 <= i < |e| ==> e[i] != QUOTE && e[i] != BACKSLASH
      else e == [u] && u != QUOTE
  {
  }

  lemma MinifyHead(s: Text, r: Text)
    requires s != []
    ensures Minify(Head(s) + r, true) == Head(s) + Minify(r, true)
  {
    hide EscapedUnit, Minify;
    EscapeShape(s[0]);
    var h := Head(s);
    if h[0] == BACKSLASH {
      MinifyEscape(h, r);
    } else {
      MinifyUnits(h, r);
    }
  }

  lemma MinifyEscape(h: Text, r: Text)
    requires |h| >= 2 && h[0] == BACKSLASH
    requires forall i :: 2 <= i < |h| ==> h[i] != QUOTE && h[i] != BACKSLASH
    ensures Minify(h + r, true) == h + Minify(r, true)
  {
    assert (h + r)[..2] == h[..2] && (h + r)[2..] == h[2..] + r;
    MinifyUnits(h[2..], r);
    Associate(h[..2], h[2..], Minify(r, true));
    assert h == h[..2] + h[2..];
  }

  lemma {:induction false} MinifyQuoted(s: Text, r: Text)
    ensures Minify(QuotedBody(s) + ([QUOTE] + r), true) == QuotedBody(s) + ([QUOTE] + Minify(r, false))
    decreases |s|
  {
    var x := [QUOTE] + r;
    if s == [] {
      assert [] + x == x && x[1..] == r;
      assert [] + ([QUOTE] + Minify(r, false)) == [QUOTE] + Minify(r, false);
    } else {
      hide EscapedUnit, Minify;
      QuotedStep(s, x);
      QuotedStep(s, [QUOTE] + Minify(r, false));
      MinifyHead(s, QuotedBody(s[Consumed(s)..]) + x);
      MinifyQuoted(s[Consumed(s)..], r);
    }
  }

  lemma MinifyString(s: Text, r: Text)
    ensures Minify([QUOTE] + QuotedBody(s) + [QUOTE] + r, false)
      == [QUOTE] + QuotedBody(s) + [QUOTE] + Minify(r, false)
  {
    hide QuotedBody;
    Bracketed(QUOTE, QuotedBody(s), QUOTE, r);
    Bracketed(QUOTE, QuotedBody(s), QUOTE, Minify(r, false));
    var rest := QuotedBody(s) + ([QUOTE] + r);
    assert ([QUOTE] + rest)[1..] == rest;
    MinifyQuoted(s, r);
  }

  lemma NewLineIsBlank(indent: nat, r: Text)
    ensures Minify(NewLine(indent) + r, false) == Minify(r, false)
  {
    MinifyBlank(NewLine(indent), r);
  }

  lemma MinifyOne(u: Unit, r: Text)
    requires !Blank(u) && u != QUOTE
    ensures Minify([u] + r, false) == [u] + Minify(r, false)
  {
    MinifySolid([u], r);
  }

  lemma SpellingIsSolid(j: Json)
    requires Valid(j) && !j.String? && !j.Array? && !j.Object?
    ensures Solid(Print(j))
  {
  }

  /** Without the white space between its tokens, the indented text is the compact one. */
  lemma {:induction false} MinifyPretty(j: Json, indent: nat, r: Text)
    requires Valid(j)
    ensures Minify(Pretty(j, indent) + r, false) == Print(j) + Minify(r, false)
    decreases j, 0
  {
    match j
    case String(s) =>
      MinifyString(s, r);
    case Array(items) =>
      MinifyArray(items, indent, r);
    case Object(members) =>
      MinifyObject(members, indent, r);
    case _ =>
      SpellingIsSolid(j);
      MinifySolid(Print(j), r);
  }

  lemma EmptyBrackets(open: Unit, close: Unit, r: Text)
    requires !Blank(open) && open != QUOTE && !Blank(close) && close != QUOTE
    ensures Minify([open, close] + r, false) == [open, close] + Minify(r, false)
  {
    MinifySolid([open, close], r);
  }

  lemma {:induction false} MinifyArray(items: seq<Json>, indent: nat, r: Text)
    requires forall i :: 0 <= i < |items| ==> Valid(items[i])
    ensures Minify(Pretty(Array(items), indent) + r, false) == Print(Array(items)) + Minify(r, false)
    decreases items, 2
  {
    if items == [] {
      EmptyBrackets(91, 93, r);
      assert [91] + DropComma([]) + [93] == [91, 93];
    } else {
      MinifyItems(items, indent + 2, NewLine(indent) + [93] + r);
      CloseUp(91, PrettyItems(items, indent + 2), PrintItems(items), indent, 93, r);
      hide Minify, PrettyItems, PrintItems, NewLine, DropComma;
    }
  }

  lemma {:induction false} MinifyObject(members: seq<Member>, indent: nat, r: Text)
    requires forall i :: 0 <= i < |members| ==> Valid(members[i].value)
    ensures Minify(Pretty(Object(members), indent) + r, false) == Print(Object(members)) + Minify(r, false)
    decreases members, 2
  {
    if members == [] {
      EmptyBrackets(123, 125, r);
      assert [123] + DropComma([]) + [125] == [123, 125];
    } else {
      MinifyMembers(members, indent + 2, NewLine(indent) + [125] + r);
      CloseUp(123, PrettyMembers(members, indent + 2), PrintMembers(members), indent, 125, r);
      hide Minify, PrettyMembers, PrintMembers, NewLine, DropComma;
    }
  }

  /** From the elements with their commas to the brackets around them. */
  lemma CloseUp(open: Unit, pretty: Text, plain: Text, indent: nat, close: Unit, r: Text)
    requires !Blank(open) && open != QUOTE && !Blank(close) && close != QUOTE
    requires pretty != [] && pretty[0] == COMMA && plain != [] && plain[0] == COMMA
    requires Minify(pretty + (NewLine(indent) + [close] + r), false)
      == plain + Minify(NewLine(indent) + [close] + r, false)
    ensures Minify([open] + (DropComma(pretty) + (NewLine(indent) + [close])) + r, false)
      == [open] + DropComma(plain) + [close] + Minify(r, false)
  {
    var tail := NewLine(indent) + [close] + r;
    var m := Minify(r, false);
    Associate(NewLine(indent), [close], r);
    NewLineIsBlank(indent, [close] + r);
    MinifyOne(close, r);
    hide Minify, NewLine;
    assert Minify(tail, false) == [close] + m;
    assert pretty == [COMMA] + DropComma(pretty) && plain == [COMMA] + DropComma(plain);
    Associate([COMMA], DropComma(pretty), tail);
    MinifyOne(COMMA, DropComma(pretty) + tail);
    Associate([COMMA], DropComma(plain), [close] + m);
    Cancel([COMMA], Minify(DropComma(pretty) + tail, false), [COMMA], DropComma(plain) + ([close] + m));
    Associate([open], DropComma(pretty) + (NewLine(indent) + [close]), r);
    Associate(DropComma(pretty), NewLine(indent) + [close], r);
    MinifyOne(open, DropComma(pretty) + tail);
    Bracketed(open, DropComma(plain), close, m);
  }

  lemma {:induction false} MinifyItems(items: seq<Json>, indent: nat, r: Text)
    requires forall i :: 0 <= i < |items| ==> Valid(items[i])
    ensures Minify(PrettyItems(items, indent) + r, false) == PrintItems(items) + Minify(r, false)
    ensures items != [] ==> PrettyItems(items, indent) != [] && PrettyItems(items, indent)[0] == COMMA
    ensures items != [] ==> PrintItems(items) != [] && PrintItems(items)[0] == COMMA
    decreases items, 1
  {
    hide Minify, Pretty, Print, NewLine;
    if items == [] {
      assert [] + r == r && [] + Minify(r, false) == Minify(r, false);
    } else {
      var first, rest := Pretty(items[0], indent), PrettyItems(items[1..], indent);
      MinifyItems(items[1..], indent, r);
      MinifyPretty(items[0], indent, rest + r);
      NewLineIsBlank(indent, first + (rest + r));
      MinifyOne(COMMA, NewLine(indent) + (first + (rest + r)));
      Associate(first, rest, r);
      Associate(NewLine(indent), first + rest, r);
      Associate([COMMA], NewLine(indent) + (first + rest), r);
      Associate([COMMA] + Print(items[0]), PrintItems(items[1..]), Minify(r, false));
      Associate([COMMA], Print(items[0]), PrintItems(items[1..]) + Minify(r, false));
    }
  }

  function Quoted(key: Text): Text {
    [QUOTE] + QuotedBody(key) + [QUOTE]
  }

  lemma CompactMember(members: seq<Member>, m: Text)
    requires members != []
    ensures PrintMembers(members) + m == [COMMA] + (Quoted(members[0].key) + ([COLON]
      + (Print(members[0].value) + (PrintMembers(members[1..]) + m))))
  {
    var body, value, rest := QuotedBody(members[0].key), Print(members[0].value), PrintMembers(members[1..]);
    assert PrintMembers(members) == [COMMA, QUOTE] + body + [QUOTE, COLON] + value + rest;
    hide Print, QuotedBody, PrintMembers;
    AssociateFive([COMMA, QUOTE], body, [QUOTE, COLON], value, rest, m);
    var v := value + (rest + m);
    assert [QUOTE, COLON] == [QUOTE] + [COLON] && [COMMA, QUOTE] == [COMMA] + [QUOTE];
    Associate([QUOTE], [COLON], v);
    Bracketed(QUOTE, body, QUOTE, [COLON] + v);
    Associate([COMMA], [QUOTE], body + ([QUOTE] + ([COLON] + v)));
  }

  lemma IndentedMember(members: seq<Member>, indent: nat, r: Text)
    requires members != []
    ensures PrettyMembers(members, indent) + r == [COMMA] + (NewLine(indent) + (Quoted(members[0].key) + ([COLON]
      + ([SPACE] + (Pretty(members[0].value, indent) + (PrettyMembers(members[1..], indent) + r))))))
  {
    var quoted := Quoted(members[0].key);
    var value, rest := Pretty(members[0].value, indent), PrettyMembers(members[1..], indent);
    assert PrettyMembers(members, indent)
      == [COMMA] + (NewLine(indent) + (quoted + ([COLON] + ([SPACE] + (value + rest)))));
    hide Pretty, PrettyMembers, NewLine, Quoted;
    Associate([COMMA], NewLine(indent) + (quoted + ([COLON] + ([SPACE] + (value + rest)))), r);
    Associate(NewLine(indent), quoted + ([COLON] + ([SPACE] + (value + rest))), r);
    Associate(quoted, [COLON] + ([SPACE] + (value + rest)), r);
    Associate([COLON], [SPACE] + (value + rest), r);
    Associate([SPACE], value + rest, r);
    Associate(value, rest, r);
  }

  lemma {:induction false} MinifyMembers(members: seq<Member>, indent: nat, r: Text)
    requires forall i :: 0 <= i < |members| ==> Valid(members[i].value)
    ensures Minify(PrettyMembers(members, indent) + r, false) == PrintMembers(members) + Minify(r, false)
    ensures members != [] ==> PrettyMembers(members, indent) != [] && PrettyMembers(members, indent)[0] == COMMA
    ensures members != [] ==> PrintMembers(members) != [] && PrintMembers(members)[0] == COMMA
    decreases members, 1
  {
    hide Minify, Pretty, Print, NewLine, QuotedBody;
    if members == [] {
      assert [] + r == r && [] + Minify(r, false) == Minify(r, false);
    } else {
      var value := Pretty(members[0].value, indent) + (PrettyMembers(members[1..], indent) + r);
      MinifyMembers(members[1..], indent, r);
      MinifyPretty(members[0].value, indent, PrettyMembers(members[1..], indent) + r);
      IndentedMember(members, indent, r);
      CompactMember(members, Minify(r, false));
      hide PrettyMembers, PrintMembers;
      var quoted := Quoted(members[0].key);
      MinifyBlank([SPACE], value);
      MinifyOne(COLON, [SPACE] + value);
      MinifyString(members[0].key, [COLON] + ([SPACE] + value));
      NewLineIsBlank(indent, quoted + ([COLON] + ([SPACE] + value)));
      MinifyOne(COMMA, NewLine(indent) + (quoted + ([COLON] + ([SPACE] + value))));
    }
  }

  lemma MinifyNothing()
    ensures Minify([], false) == []
  {
  }

  /** The file prettyJson writes, without white space between tokens, is what canonicalJson gives of
      the same value. */
  lemma MinifyPrettyJson(j: Json)
    requires Valid(j)
    ensures Minify(PrettyJson(j), false) == CanonicalText(j)
  {
    MinifyNothing();
    hide Minify, Pretty, Print, Canonicalize;
    CanonicalizeValid(j);
    MinifyPretty(Canonicalize(j), 0, [NEWLINE]);
    MinifyBlank([NEWLINE], []);
    assert [NEWLINE] + [] == [NEWLINE] && CanonicalText(j) + [] == CanonicalText(j);
  }

  // ---- the receipt seal ----

  const RECEIPT: Text := [114, 101, 99, 101, 105, 112, 116]

  /** const { receipt: _receipt, ...body } = value */
  function WithoutReceipt(members: seq<Member>): seq<Member> {
    if members == [] then []
    else (if members[0].key == RECEIPT then [] else [members[0]]) + WithoutReceipt(members[1..])
  }

  lemma {:induction false} WithoutReceiptMembers(members: seq<Member>)
    ensures forall m :: m in WithoutReceipt(members) <==> m in members && m.key != RECEIPT
    ensures DistinctKeys(members) ==> DistinctKeys(WithoutReceipt(members))
  {
    if members != [] {
      WithoutReceiptMembers(members[1..]);
      assert members == [members[0]] + members[1..];
      var rest := WithoutReceipt(members[1..]);
      if DistinctKeys(members) {
        forall m | m in rest ensures m.key != members[0].key {
          var k :| 0 <= k < |members[1..]| && members[1..][k] == m;
          assert members[k + 1] == m;
        }
        assert forall i :: 0 <= i < |rest| ==> rest[i] in rest;
      }
    }
  }

  /** JSON.parse of a text that spells its numbers and strings as JSON.stringify does gives this value:
      it skips the white space between tokens. */
  predicate Reads(text: Text, value: Json) {
    Valid(value) && Finite(value) && Print(value) == Minify(text, false)
  }

  /** Exactly one value is read back from a file. */
  lemma RereadIsWritten(j: Json, reread: Json)
    requires Valid(j)
    ensures Reads(PrettyJson(j), reread) <==> reread == Written(Canonicalize(j))
    ensures Written(Canonicalize(j)) == Canonicalize(Written(j))
  {
    hide Print, Canonicalize, Written, Valid, Finite, Minify, PrettyJson, Spelled;
    MinifyPrettyJson(j);
    CanonicalizeValid(j);
    CanonicalizeWritten(j);
    WrittenIsSpelled(Canonicalize(j));
    WrittenPrintsAlike(Canonicalize(j));
    if Reads(PrettyJson(j), reread) {
      PrintUnique(reread, Canonicalize(j), [], []);
      FiniteIsWritten(reread);
    }
  }

  lemma {:induction false} SameAsFinite(a: Json, b: Json)
    requires SameValue(a, b) && Finite(b)
    ensures Finite(a)
    decreases a
  {
    match (a, b)
    case (Array(xs), Array(ys)) =>
      forall i | 0 <= i < |xs| ensures Finite(xs[i]) {
        SameAsFinite(xs[i], ys[i]);
      }
    case (Object(ms), Object(ns)) =>
      forall i | 0 <= i < |ms| ensures Finite(ms[i].value) {
        assert ms[i] in ms && Matched(ms[i], ns, false);
        var n :| n in ns && n.key == ms[i].key && Alike(ms[i].value, n.value, false);
        SameAsFinite(ms[i].value, n.value);
      }
    case _ =>
  }

  /** Written to a file and read back, a value is itself, up to key order, exactly when it has neither
      a "__proto__" key nor an infinite number. */
  lemma RereadExactly(j: Json, reread: Json)
    requires Valid(j) && Reads(PrettyJson(j), reread)
    ensures SameValue(j, reread) <==> ProtoFree(j) && Finite(j)
  {
    hide Canonicalize, Written, Finite, ProtoFree, Alike, PrettyJson, Print, Minify, Valid;
    RereadIsWritten(j, reread);
    if SameValue(j, reread) {
      SameAsFinite(j, reread);
    }
    if Finite(j) {
      FiniteIsWritten(j);
      CanonicalizeKeepsExactly(j);
    }
  }

  /** An infinite number is written as null: the two values have one text. */
  lemma InfinityIsLost(key: Text, negative: bool)
    ensures CanonicalText(Object([Member(key, NonFinite(negative))])) == CanonicalText(Object([Member(key, Null)]))
    ensures !SameValue(Object([Member(key, NonFinite(negative))]), Object([Member(key, Null)]))
  {
    var infinite, none := Object([Member(key, NonFinite(negative))]), Object([Member(key, Null)]);
    assert WrittenMembers(infinite.members) == WrittenMembers(none.members) == none.members;
    CanonicalTextIffEquivalent(infinite, none);
    CanonicalTextIffEquivalent(none, none);
    hide CanonicalText;
    assert infinite.members[0] in infinite.members;
    assert !Matched(infinite.members[0], none.members, false);
  }

  /** Writing a sealed document to a file, reading it back and dropping its receipt leaves the digest
      input of the body. */
  lemma SealSurvivesRereading(body: seq<Member>, receipt: Json, reread: Json)
    requires Valid(Object(body)) && Valid(receipt)
    requires forall m :: m in body ==> m.key != RECEIPT
    requires Reads(PrettyJson(Object(body + [Member(RECEIPT, receipt)])), reread)
    ensures reread.Object?
    ensures CanonicalText(Object(WithoutReceipt(reread.members))) == CanonicalText(Object(body))
  {
    hide Print, Canonicalize, Written, Valid, Finite, Minify, PrettyJson, Alike;
    var sealed := Object(body + [Member(RECEIPT, receipt)]);
    SealedIsValid(body, receipt);
    RereadIsWritten(sealed, reread);
    WrittenIsSpelled(sealed);
    KindKept(Written(sealed));
    WrittenObject(sealed.members);
    CanonicalizeIdempotent(Written(sealed));
    OneFormIsEquivalent(reread, Written(sealed));
    SealChecks(reread.members, body, receipt);
  }

  lemma WrittenObject(members: seq<Member>)
    ensures Written(Object(members)) == Object(WrittenMembers(members))
  {
  }

  lemma SealedIsValid(body: seq<Member>, receipt: Json)
    requires Valid(Object(body)) && Valid(receipt) && forall m :: m in body ==> m.key != RECEIPT
    ensures Valid(Object(body + [Member(RECEIPT, receipt)]))
  {
    assert forall i :: 0 <= i < |body| ==> body[i] in body;
  }

  lemma WithoutReceiptValid(members: seq<Member>)
    requires Valid(Object(members))
    ensures Valid(Object(WithoutReceipt(members)))
  {
    WithoutReceiptMembers(members);
    var rest := WithoutReceipt(members);
    forall i | 0 <= i < |rest| ensures Valid(rest[i].value) {
      assert rest[i] in members;
    }
  }

  lemma WithoutOwnReceipt(members: seq<Member>, body: seq<Member>, receipt: Json)
    requires forall m :: m in body ==> m.key != RECEIPT
    requires Equivalent(Object(members), Object(body + [Member(RECEIPT, receipt)]))
    ensures Equivalent(Object(WithoutReceipt(members)), Object(body))
  {
    var rest, all := WithoutReceipt(members), body + [Member(RECEIPT, receipt)];
    WithoutReceiptMembers(members);
    hide WithoutReceipt;
    forall m | m in rest && m.key != PROTO ensures Matched(m, body, true) {
      assert Matched(m, all, true);
      var n :| n in all && n.key == m.key && Alike(m.value, n.value, true);
      assert n in body;
    }
    forall n | n in body && n.key != PROTO ensures HasKey(rest, n.key) {
      assert n in all && HasKey(members, n.key);
      var m :| m in members && m.key == n.key;
      assert m in rest;
    }
  }

  lemma FiniteWithoutReceipt(members: seq<Member>)
    requires Finite(Object(members))
    ensures Finite(Object(WithoutReceipt(members)))
  {
    WithoutReceiptMembers(members);
    var rest := WithoutReceipt(members);
    forall i | 0 <= i < |rest| ensures Finite(rest[i].value) {
      assert rest[i] in members;
    }
  }

  lemma SealChecks(members: seq<Member>, body: seq<Member>, receipt: Json)
    requires Valid(Object(members)) && Finite(Object(members)) && Valid(Object(body))
    requires forall m :: m in body ==> m.key != RECEIPT
    requires Equivalent(Object(members), Written(Object(body + [Member(RECEIPT, receipt)])))
    ensures CanonicalText(Object(WithoutReceipt(members))) == CanonicalText(Object(body))
  {
    hide CanonicalText, Valid, WithoutReceipt, Written, Finite, Alike;
    var rest, sealed := WithoutReceipt(members), body + [Member(RECEIPT, receipt)];
    WithoutReceiptValid(members);
    FiniteWithoutReceipt(members);
    FiniteIsWritten(Object(rest));
    WrittenObject(body);
    WrittenObject(sealed);
    assert WrittenMembers(sealed) == WrittenMembers(body) + [Member(RECEIPT, Written(receipt))];
    forall m | m in WrittenMembers(body) ensures m.key != RECEIPT {
      InWritten(body, m);
    }
    WithoutOwnReceipt(members, WrittenMembers(body), Written(receipt));
    CanonicalTextIffEquivalent(Object(rest), Object(body));
  }

  /** The seal check on any document: its digest input is the sealed body's iff what is written of it
      besides a receipt is what is written of that body, up to key order and "__proto__" members. */
  lemma SealDetectsChange(members: seq<Member>, body: seq<Member>)
    requires Valid(Object(members)) && Valid(Object(body))
    ensures CanonicalText(Object(WithoutReceipt(members))) == CanonicalText(Object(body))
       <==> Equivalent(Written(Object(WithoutReceipt(members))), Written(Object(body)))
  {
    WithoutReceiptValid(members);
    CanonicalTextIffEquivalent(Object(WithoutReceipt(members)), Object(body));
  }
}
