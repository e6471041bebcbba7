/**
 * The enumeration registry of najapy/enum/base_enum.py.
 *
 * A BaseEnum subclass declares its members as class attributes holding Enum
 * objects (a code, a message and a value). The registry lists their codes in
 * ascending order and maps codes to messages, members and values; each view
 * is computed by walking `dir(cls)` once and memoised in a class field, which
 * is consulted only while it is non-empty. Codes are integers here.
 */
module Enums {
  import opened Wrappers
  import opened Text
  import opened Py

  /** An `Enum(code, message, value)`. */
  datatype Member = Member(code: int, message: string, value: Value)

  /** The right operand of `==`: another Enum or any other value. */
  datatype Operand = EnumObj(m: Member) | Plain(v: Value)

  /**
   * `Enum.__eq__`: by code against an Enum, otherwise `code == other`, which
   * holds exactly for a number (an int or a bool) equal to the code.
   */
  predicate Eq(self: Member, other: Operand)
    ensures other.Plain? ==> (Eq(self, other) <==> IsNumber(other.v) && NumberValue(other.v) == self.code)
  {
    match other
    case EnumObj(m) => self.code == m.code
    case Plain(v) => Equal(Int(self.code), v)
  }

  /** Between members, `==` is an equivalence, and it matches comparing against the bare code. */
  lemma EqIsEquivalence(a: Member, b: Member, c: Member)
    ensures Eq(a, EnumObj(a))
    ensures Eq(a, EnumObj(b)) == Eq(b, EnumObj(a))
    ensures Eq(a, EnumObj(b)) && Eq(b, EnumObj(c)) ==> Eq(a, EnumObj(c))
    ensures Eq(a, EnumObj(b)) <==> Eq(a, Plain(Int(b.code)))
  {
  }

  // ---------------------------------------------------------------- sorting

  predicate Sorted(s: seq<int>) {
    forall i, j :: 0 <= i < j < |s| ==> s[i] <= s[j]
  }

  /** `x` put into its place in the sorted `s`. */
  function Insert(x: int, s: seq<int>): (r: seq<int>)
    requires Sorted(s)
    ensures Sorted(r)
    ensures multiset(r) == multiset(s) + multiset{x}
    ensures |r| == |s| + 1
    ensures r[0] == if s == [] || x <= s[0] then x else s[0]
  {
    if s == [] then [x]
    else if x <= s[0] then [x] + s
    else
      SortedTail(s);
      var rest := Insert(x, s[1..]);
      assert |s| > 1 ==> s[0] <= s[1];
      InsertBehind(s, x, rest);
      [s[0]] + rest
  }

  /** Putting the head of `s` before `x` inserted into its tail gives a sorted list holding `s` and `x`. */
  lemma InsertBehind(s: seq<int>, x: int, rest: seq<int>)
    requires s != [] && rest != [] && s[0] <= rest[0]
    requires Sorted(rest) && multiset(rest) == multiset(s[1..]) + multiset{x}
    ensures Sorted([s[0]] + rest)
    ensures multiset([s[0]] + rest) == multiset(s) + multiset{x}
  {
    HeadTail(s);
    SortedCons(s[0], rest);
    var r := [s[0]] + rest;
    assert r[1..] == rest;
    HeadTail(r);
  }

  /** A non-empty list is its head followed by its tail, also as a multiset. */
  lemma HeadTail(s: seq<int>)
    requires s != []
    ensures s == [s[0]] + s[1..]
    ensures multiset(s) == multiset{s[0]} + multiset(s[1..])
  {
    assert s == [s[0]] + s[1..];
  }

  /** A sorted list stays sorted under a new first element no larger than its head. */
  lemma SortedCons(a: int, s: seq<int>)
    requires Sorted(s) && s != [] && a <= s[0]
    ensures Sorted([a] + s)
  {
    var r := [a] + s;
    forall i, j | 0 <= i < j < |r| ensures r[i] <= r[j] {
      if i > 0 {
        assert r[i] == s[i - 1] && r[j] == s[j - 1];
      } else {
        assert r[j] == s[j - 1] && s[0] <= s[j - 1];
      }
    }
  }

  /** `sorted(s)`: the same integers in ascending order. */
  function Sort(s: seq<int>): (r: seq<int>)
    ensures Sorted(r)
    ensures multiset(r) == multiset(s)
  {
    if s == [] then []
    else
      assert s == [s[0]] + s[1..];
      Insert(s[0], Sort(s[1..]))
  }

  /** The first element of a sorted sequence is its least. */
  lemma SortedFirst(s: seq<int>, x: int)
    requires Sorted(s) && x in multiset(s)
    ensures s[0] <= x
  {
    assert x in s;
  }

  lemma SortedTail(s: seq<int>)
    requires Sorted(s) && s != []
    ensures Sorted(s[1..])
  {
    forall i, j | 0 <= i < j < |s| - 1
      ensures s[1..][i] <= s[1..][j]
    {
      assert s[1..][i] == s[i + 1] && s[1..][j] == s[j + 1];
    }
  }

  /** Two sorted orders of one multiset start alike and continue with sorted orders of one multiset. */
  lemma SortedUniqueStep(a: seq<int>, b: seq<int>)
    requires Sorted(a) && Sorted(b) && multiset(a) == multiset(b) && a != []
    ensures b != [] && a[0] == b[0]
    ensures Sorted(a[1..]) && Sorted(b[1..]) && multiset(a[1..]) == multiset(b[1..])
  {
    assert |b| == |multiset(b)| == |multiset(a)| == |a|;
    HeadTail(a);
    HeadTail(b);
    SortedFirst(a, b[0]);
    SortedFirst(b, a[0]);
    assert multiset(a[1..]) == multiset(a) - multiset{a[0]};
    assert multiset(b[1..]) == multiset(b) - multiset{b[0]};
    SortedTail(a);
    SortedTail(b);
  }

  /** The ascending order of a multiset is unique. */
  lemma {:induction false} SortedUnique(a: seq<int>, b: seq<int>)
    requires Sorted(a) && Sorted(b) && multiset(a) == multiset(b)
    ensures a == b
    decreases |a|
  {
    if a == [] {
      assert |b| == |multiset(b)| == 0;
    } else {
      SortedUniqueStep(a, b);
      SortedUnique(a[1..], b[1..]);
      assert a == [a[0]] + a[1..] && b == [b[0]] + b[1..];
    }
  }

  // ---------------------------------------------------------------- the registry

  /** A class attribute as `dir(cls)` and `getattr` see it. */
  datatype Attr = Attr(name: string, obj: Operand)

  predicate IsDunder(name: string) {
    |name| >= 2 && name[..2] == "__"
  }

  /** The attribute is a member: its name does not start with "__" and it holds an Enum. */
  predicate IsMember(a: Attr) {
    !IsDunder(a.name) && a.obj.EnumObj?
  }

  /** The positions in `attrs` that hold members, in increasing order. */
  function MemberPositions(attrs: seq<Attr>): (ps: seq<nat>)
    ensures forall k :: 0 <= k < |ps| ==> ps[k] < |attrs| && IsMember(attrs[ps[k]])
    ensures forall k, l :: 0 <= k < l < |ps| ==> ps[k] < ps[l]
    ensures forall i :: 0 <= i < |attrs| && IsMember(attrs[i]) ==> i in ps
  {
    if attrs == [] then []
    else
      var prefix := attrs[..|attrs| - 1];
      assert forall i :: 0 <= i < |prefix| ==> prefix[i] == attrs[i];
      MemberPositions(prefix) + (if IsMember(attrs[|attrs| - 1]) then [|attrs| - 1] else [])
  }

  /** The members among `attrs`, in order: the k-th is the one at the k-th member position. */
  function Members(attrs: seq<Attr>): (r: seq<Member>)
    ensures |r| <= |attrs|
    ensures |r| == |MemberPositions(attrs)|
    ensures forall k :: 0 <= k < |r| ==> r[k] == attrs[MemberPositions(attrs)[k]].obj.m
  {
    if attrs == [] then []
    else
      var last := attrs[|attrs| - 1];
      var prefix := attrs[..|attrs| - 1];
      assert forall i :: 0 <= i < |prefix| ==> prefix[i] == attrs[i];
      Members(prefix) + (if IsMember(last) then [last.obj.m] else [])
  }

  function Codes(ms: seq<Member>): (r: seq<int>)
    ensures |r| == |ms| && forall i :: 0 <= i < |ms| ==> r[i] == ms[i].code
  {
    seq(|ms|, i requires 0 <= i < |ms| => ms[i].code)
  }

  /** The dictionary built by `d[m.code] = f(m)` over `ms` in order: a later member wins. */
  function CodeMap<T>(ms: seq<Member>, f: Member -> T): (r: map<int, T>)
    ensures forall i :: 0 <= i < |ms| ==> ms[i].code in r
  {
    if ms == [] then map[]
    else CodeMap(ms[..|ms| - 1], f)[ms[|ms| - 1].code := f(ms[|ms| - 1])]
  }

  /**
   * The keys of a code map are the members' codes, and each key maps to what
   * the last member with that code gives.
   */
  lemma {:induction false} CodeMapEntries<T>(ms: seq<Member>, f: Member -> T, code: int)
    ensures code in CodeMap(ms, f) <==> exists i :: 0 <= i < |ms| && ms[i].code == code
    ensures code in CodeMap(ms, f) ==>
      exists i :: && 0 <= i < |ms| && ms[i].code == code && CodeMap(ms, f)[code] == f(ms[i])
                  && forall j :: i < j < |ms| ==> ms[j].code != code
  {
    if ms != [] {
      var prefix := ms[..|ms| - 1];
      var last := ms[|ms| - 1];
      CodeMapEntries(prefix, f, code);
      assert forall i :: 0 <= i < |prefix| ==> prefix[i] == ms[i];
      if last.code != code && code in CodeMap(prefix, f) {
        var i :| && 0 <= i < |prefix| && prefix[i].code == code && CodeMap(prefix, f)[code] == f(prefix[i])
                 && forall j :: i < j < |prefix| ==> prefix[j].code != code;
        assert forall j :: i < j < |ms| ==> ms[j].code != code;
      }
    }
  }

  /** Looking at one more attribute of `dir(cls)` adds it when it is a member. */
  lemma MembersStep(attrs: seq<Attr>, i: nat)
    requires i < |attrs|
    ensures Members(attrs[..i + 1]) == Members(attrs[..i]) + (if IsMember(attrs[i]) then [attrs[i].obj.m] else [])
  {
    assert attrs[..i + 1][..i] == attrs[..i];
  }

  /** Filling in one more member sets its code last. */
  lemma CodeMapPush<T>(ms: seq<Member>, m: Member, f: Member -> T)
    ensures CodeMap(ms + [m], f) == CodeMap(ms, f)[m.code := f(m)]
  {
    assert (ms + [m])[..|ms|] == ms;
  }

  /** A BaseEnum subclass: its attributes in `dir()` order and the four memo fields. */
  class BaseEnum {
    const attrs: seq<Attr>
    var attrList: seq<int>              // `_attr_list`; empty stands for None
    var attrDict: map<int, string>      // `_attr_dict`
    var attrDictEnum: map<int, Member>  // `_attr_dict_enum`
    var attrWeight: map<int, Value>     // `_attr_weight_dict`

    /** Each memo field is unset (falsy) or holds what its method computes. */
    ghost predicate Valid()
      reads this
    {
      && (attrList != [] ==> attrList == Sort(Codes(Members(attrs))))
      && (attrDict != map[] ==> attrDict == CodeMap(Members(attrs), MessageOf))
      && (attrDictEnum != map[] ==> attrDictEnum == CodeMap(Members(attrs), Itself))
      && (attrWeight != map[] ==> attrWeight == CodeMap(Members(attrs), ValueOf))
    }

    constructor (attrs: seq<Attr>)
      ensures Valid() && this.attrs == attrs
      ensures attrList == [] && attrDict == map[] && attrDictEnum == map[] && attrWeight == map[]
    {
      this.attrs := attrs;
      attrList, attrDict, attrDictEnum, attrWeight := [], map[], map[], map[];
    }

    /** The loop over `dir(cls)` keeping the members. */
    method CollectMembers() returns (members: seq<Member>)
      ensures members == Members(attrs)
    {
      members := [];
      for i := 0 to |attrs|
        invariant members == Members(attrs[..i])
      {
        MembersStep(attrs, i);
        if IsMember(attrs[i]) {
          members := members + [attrs[i].obj.m];
        }
      }
      assert attrs[..|attrs|] == attrs;
    }

    /** The loop filling a dictionary by code, shared by `to_dict`, `to_dict_enum` and `to_weight`. */
    method CollectByCode<T>(f: Member -> T) returns (d: map<int, T>)
      ensures d == CodeMap(Members(attrs), f)
    {
      d := map[];
      ghost var seen: seq<Member> := [];
      for i := 0 to |attrs|
        invariant seen == Members(attrs[..i])
        invariant d == CodeMap(seen, f)
      {
        MembersStep(attrs, i);
        if IsMember(attrs[i]) {
          var m := attrs[i].obj.m;
          CodeMapPush(seen, m, f);
          d := d[m.code := f(m)];
          seen := seen + [m];
        }
      }
      assert attrs[..|attrs|] == attrs;
    }

    /** `to_list()`: the members' codes in ascending order, memoised once non-empty. */
    method ToList() returns (r: seq<int>)
      requires Valid()
      modifies this`attrList
      ensures Valid()
      ensures r == Sort(Codes(Members(attrs)))
      ensures Sorted(r) && multiset(r) == multiset(Codes(Members(attrs)))
      ensures old(attrList) != [] ==> r == old(attrList)
      ensures attrList == r
    {
      if attrList != [] {
        return attrList;
      }
      var members := CollectMembers();
      r := Sort(Codes(members));
      attrList := r;
    }

    /** `to_dict()`: each member's code mapped to its message. */
    method ToDict() returns (r: map<int, string>)
      requires Valid()
      modifies this`attrDict
      ensures Valid()
      ensures r == CodeMap(Members(attrs), MessageOf)
      ensures old(attrDict) != map[] ==> r == old(attrDict)
      ensures attrDict == r
    {
      if attrDict != map[] {
        return attrDict;
      }
      r := CollectByCode(MessageOf);
      attrDict := r;
    }

    /** `to_dict_enum()`: each member's code mapped to the member. */
    method ToDictEnum() returns (r: map<int, Member>)
      requires Valid()
      modifies this`attrDictEnum
      ensures Valid()
      ensures r == CodeMap(Members(attrs), Itself)
      ensures old(attrDictEnum) != map[] ==> r == old(attrDictEnum)
      ensures attrDictEnum == r
    {
      if attrDictEnum != map[] {
        return attrDictEnum;
      }
      r := CollectByCode(Itself);
      attrDictEnum := r;
    }

    /** `to_weight()`: each member's code mapped to its value. */
    method ToWeight() returns (r: map<int, Value>)
      requires Valid()
      modifies this`attrWeight
      ensures Valid()
      ensures r == CodeMap(Members(attrs), ValueOf)
      ensures old(attrWeight) != map[] ==> r == old(attrWeight)
      ensures attrWeight == r
    {
      if attrWeight != map[] {
        return attrWeight;
      }
      r := CollectByCode(ValueOf);
      attrWeight := r;
    }

    /**
     * `validate(v)`: `int(v)`, whose TypeError passes through and whose
     * ValueError is re-raised; then ValueError unless the integer is a code.
     */
    method Validate(v: Value) returns (r: Result<int>)
      requires Valid()
      modifies this`attrList
      ensures Valid()
      ensures IntOf(v).Err? ==> r == IntOf(v)
      ensures IntOf(v).Ok? ==> (r.Ok? <==> IntOf(v).value in Codes(Members(attrs)))
      ensures r.Ok? ==> r == IntOf(v)
      ensures r.Err? && IntOf(v).Ok? ==> r.error == ValueError
    {
      var n := IntOf(v);
      if n.Err? {
        return n;
      }
      var codes := ToList();
      assert n.value in codes <==> n.value in multiset(codes);
      if n.value !in codes {
        return Err(ValueError);
      }
      r := n;
    }

    /** `__iter__`: the codes in `to_list()` order. */
    method Iter() returns (r: seq<int>)
      requires Valid()
      modifies this`attrList
      ensures Valid()
      ensures r == Sort(Codes(Members(attrs)))
    {
      r := ToList();
    }
  }

  function MessageOf(m: Member): string { m.message }
  function Itself(m: Member): Member { m }
  function ValueOf(m: Member): Value { m.value }

  /** `int(v)`: strings are parsed, bools count as 0 and 1, None and other objects raise TypeError. */
  function IntOf(v: Value): (r: Result<int>)
    ensures v.Str? ==> (r.Ok? <==> PyInt(v.s).Some?)
    ensures r.Ok? && v.Str? ==> r.value == PyInt(v.s).value
    ensures IsNumber(v) ==> r == Ok(NumberValue(v))
    ensures r.Err? ==> (r.error == ValueError <==> v.Str?)
    ensures r.Err? ==> r.error == ValueError || r.error == TypeError
  {
    match v
    case Nil => Err(TypeError)
    case Bool(b) => Ok(if b then 1 else 0)
    case Int(i) => Ok(i)
    case Str(s) => (match PyInt(s) case Some(n) => Ok(n) case None => Err(ValueError))
    case Obj(_, _) => Err(TypeError)
  }

  /** The codes `to_list` gives, whether memoised or not: each member's code once per member, ascending. */
  lemma ToListSpec(attrs: seq<Attr>, codes: seq<int>)
    requires Sorted(codes) && multiset(codes) == multiset(Codes(Members(attrs)))
    ensures codes == Sort(Codes(Members(attrs)))
  {
    SortedUnique(codes, Sort(Codes(Members(attrs))));
  }
}
