/** JSON values as nlohmann::json holds them, with its equality and with the walk that a
    JSON Pointer takes through them (generic_json_rules.cpp). */
module Json {
  import opened Wrappers

  type Int64 = i: int | -0x8000_0000_0000_0000 <= i < 0x8000_0000_0000_0000
  type UInt64 = i: int | 0 <= i < 0x1_0000_0000_0000_0000

  datatype Number = Signed(i: Int64) | Unsigned(u: UInt64) | Float(r: real)

  datatype Json =
    | Null
    | Bool(b: bool)
    | Num(n: Number)
    | Str(s: string)
    | Arr(items: seq<Json>)
    | Obj(fields: map<string, Json>)

  /** Comparison of numbers of different kinds; an unsigned number is first cast to the
      signed type. */
  predicate SameNumber(a: Number, b: Number) {
    match (a, b)
    case (Signed(i), Unsigned(u)) => i == Cast(u)
    case (Unsigned(u), Signed(i)) => i == Cast(u)
    case (Signed(i), Float(r)) => i as real == r
    case (Float(r), Signed(i)) => i as real == r
    case (Unsigned(u), Float(r)) => u as real == r
    case (Float(r), Unsigned(u)) => u as real == r
    case _ => a == b
  }

  function Cast(u: UInt64): Int64 {
    if u < 0x8000_0000_0000_0000 then u else u - 0x1_0000_0000_0000_0000
  }

  /** operator== of nlohmann::json. */
  predicate Equal(a: Json, b: Json) {
    match (a, b)
    case (Num(m), Num(n)) => SameNumber(m, n)
    case (Arr(s), Arr(t)) => |s| == |t| && forall i :: 0 <= i < |s| ==> Equal(s[i], t[i])
    case (Obj(f), Obj(g)) => f.Keys == g.Keys && forall k :: k in f ==> Equal(f[k], g[k])
    case _ => a == b
  }

  lemma EqualIsReflexive(a: Json)
    ensures Equal(a, a)
  {}

  function Value(n: Number): real {
    match n
    case Signed(i) => i as real
    case Unsigned(u) => u as real
    case Float(r) => r
  }

  /** Numbers compare by value, except that an unsigned one from 2^63 on counts as a
      negative one against a signed number. */
  lemma NumbersCompareByValue(a: Number, b: Number)
    ensures !(a.Signed? && b.Unsigned?) && !(a.Unsigned? && b.Signed?) ==> (SameNumber(a, b) <==> Value(a) == Value(b))
    ensures a.Signed? && b.Unsigned? ==>
      (SameNumber(a, b) <==> a.i == if b.u < 0x8000_0000_0000_0000 then b.u else b.u - 0x1_0000_0000_0000_0000)
    ensures SameNumber(a, b) == SameNumber(b, a)
  {
  }

  /** No number in the tree is of another kind than the one given. */
  predicate OfKind(a: Json, kind: Number) {
    match a
    case Num(n) => (n.Signed? <==> kind.Signed?) && (n.Float? <==> kind.Float?)
    case Arr(items) => forall i :: 0 <= i < |items| ==> OfKind(items[i], kind)
    case Obj(fields) => forall k :: k in fields ==> OfKind(fields[k], kind)
    case _ => true
  }

  /** Apart from numbers of different kinds, equal trees are the same tree. */
  lemma {:induction false} EqualIsIdentity(a: Json, b: Json, kind: Number)
    requires OfKind(a, kind) && OfKind(b, kind)
    ensures Equal(a, b) <==> a == b
  {
    match (a, b)
    case (Arr(s), Arr(t)) =>
      if |s| == |t| {
        forall i | 0 <= i < |s| ensures Equal(s[i], t[i]) <==> s[i] == t[i] { EqualIsIdentity(s[i], t[i], kind); }
      }
    case (Obj(f), Obj(g)) =>
      if f.Keys == g.Keys {
        forall k | k in f ensures Equal(f[k], g[k]) <==> f[k] == g[k] { EqualIsIdentity(f[k], g[k], kind); }
        if forall k :: k in f ==> f[k] == g[k] { assert f == g; }
      }
    case _ =>
  }

  /** The reason strings of RuleRuntimeError. */
  datatype Reason = InvalidArrayIndex | ArrayIndexOutOfBounds | TargetMissing | TypeConflict | InvalidRootType

  predicate IsDigit(c: char) { '0' <= c <= '9' }

  function Digit(c: char): nat
    requires IsDigit(c)
  {
    c as int - '0' as int
  }

  /** Decimal digits without sign, and without a leading zero unless it is the only digit. */
  predicate CanonicalDecimal(token: string) {
    token != [] && (forall i :: 0 <= i < |token| ==> IsDigit(token[i])) && (|token| > 1 ==> token[0] != '0')
  }

  function DecimalValue(token: string): nat
    requires forall i :: 0 <= i < |token| ==> IsDigit(token[i])
  {
    if token == [] then 0
    else DecimalValue(token[..|token| - 1]) * 10 + Digit(token[|token| - 1])
  }

  /** parse_array_index. */
  function ArrayIndex(token: string, size: nat): Result<nat, Reason> {
    if !CanonicalDecimal(token) || DecimalValue(token) >= 0x1_0000_0000_0000_0000 then Err(InvalidArrayIndex)
    else if DecimalValue(token) >= size then Err(ArrayIndexOutOfBounds)
    else Ok(DecimalValue(token))
  }

  function Decimal(n: nat): string {
    if n < 10 then [('0' as int + n) as char] else Decimal(n / 10) + [('0' as int + n % 10) as char]
  }

  lemma {:induction false} DecimalOfValue(token: string)
    requires CanonicalDecimal(token)
    ensures Decimal(DecimalValue(token)) == token
    ensures |token| > 1 ==> DecimalValue(token) >= 10
  {
    var front, last := token[..|token| - 1], token[|token| - 1];
    if |token| == 1 {
      assert DecimalValue(front) == 0;
    } else {
      assert front[0] == token[0];
      DecimalOfValue(front);
      if |front| == 1 { assert DecimalValue(front[..0]) == 0; }
      assert DecimalValue(token) / 10 == DecimalValue(front);
    }
  }

  /** Different tokens never name the same array element. */
  lemma ArrayIndexIsInjective(a: string, b: string, size: nat)
    requires ArrayIndex(a, size).Ok? && ArrayIndex(a, size) == ArrayIndex(b, size)
    ensures a == b
  {
    DecimalOfValue(a);
    DecimalOfValue(b);
  }

  /** Which token names which element: its decimal, and nothing else. */
  lemma ArrayIndexNames(token: string, size: nat, i: nat)
    ensures ArrayIndex(token, size) == Ok(i) <==> token == Decimal(i) && i < size && i < 0x1_0000_0000_0000_0000
    ensures token == Decimal(i) && size <= i < 0x1_0000_0000_0000_0000 ==> ArrayIndex(token, size) == Err(ArrayIndexOutOfBounds)
    ensures token == Decimal(i) && i >= 0x1_0000_0000_0000_0000 ==> ArrayIndex(token, size) == Err(InvalidArrayIndex)
    ensures (forall n: nat :: token != Decimal(n)) ==> ArrayIndex(token, size) == Err(InvalidArrayIndex)
  {
    ValueOfDecimal(i);
    if CanonicalDecimal(token) { DecimalOfValue(token); }
  }

  /** resolve_child. */
  function Child(parent: Json, token: string): Result<Json, Reason> {
    match parent
    case Obj(fields) => if token in fields then Ok(fields[token]) else Err(TargetMissing)
    case Arr(items) =>
      var index := ArrayIndex(token, |items|);
      if index.Ok? then Ok(items[index.value]) else Err(index.error)
    case _ => Err(TypeConflict)
  }

  function Resolve(body: Json, tokens: seq<string>): Result<Json, Reason> {
    if tokens == [] then Ok(body)
    else
      var child := Child(body, tokens[0]);
      if child.Err? then child else Resolve(child.value, tokens[1..])
  }

  function SetChild(parent: Json, token: string, child: Json): Json
    requires Child(parent, token).Ok?
  {
    match parent
    case Obj(fields) => Obj(fields[token := child])
    case Arr(items) => Arr(items[ArrayIndex(token, |items|).value := child])
  }

  /** The tree with the target overwritten. */
  function Set(body: Json, tokens: seq<string>, value: Json): Json
    requires Resolve(body, tokens).Ok?
  {
    if tokens == [] then value
    else SetChild(body, tokens[0], Set(Child(body, tokens[0]).value, tokens[1..], value))
  }

  predicate Incomparable(p: seq<string>, q: seq<string>) { !(p <= q) && !(q <= p) }

  lemma PrefixOfTails(p: seq<string>, q: seq<string>)
    requires p != [] && q != [] && p[0] == q[0]
    ensures p <= q <==> p[1..] <= q[1..]
  {
    assert p == [p[0]] + p[1..] && q == [q[0]] + q[1..];
  }

  lemma ChildAfterSetChild(parent: Json, token: string, child: Json, other: string)
    requires Child(parent, token).Ok?
    ensures Child(SetChild(parent, token, child), other) == if other == token then Ok(child) else Child(parent, other)
  {
    if parent.Arr? && other != token && ArrayIndex(other, |parent.items|).Ok?
       && ArrayIndex(other, |parent.items|) == ArrayIndex(token, |parent.items|) {
      ArrayIndexIsInjective(token, other, |parent.items|);
    }
  }

  lemma EqualChildren(parent: Json, token: string, u: Json, v: Json)
    requires Child(parent, token).Ok? && Equal(u, v)
    ensures Equal(SetChild(parent, token, u), SetChild(parent, token, v))
  {
    match parent {
      case Obj(fields) =>
        var f, g := fields[token := u], fields[token := v];
        assert f.Keys == g.Keys;
        forall k | k in f ensures Equal(f[k], g[k]) {
          if k != token { EqualIsReflexive(fields[k]); }
        }
      case Arr(items) =>
        var t := ArrayIndex(token, |items|).value;
        var f, g := items[t := u], items[t := v];
        forall i | 0 <= i < |f| ensures Equal(f[i], g[i]) {
          if i != t { EqualIsReflexive(items[i]); }
        }
    }
  }

  /** Equal values at the same place make equal trees. */
  lemma {:induction false} EqualIsCongruent(body: Json, p: seq<string>, u: Json, v: Json)
    requires Resolve(body, p).Ok? && Equal(u, v)
    ensures Equal(Set(body, p, u), Set(body, p, v))
    decreases |p|
  {
    if p != [] {
      var child := Child(body, p[0]).value;
      EqualIsCongruent(child, p[1..], u, v);
      EqualChildren(body, p[0], Set(child, p[1..], u), Set(child, p[1..], v));
    }
  }

  /** What every pointer resolves to after a set: the value and what is inside it at and
      below the target, the updated containers above it, and what was there elsewhere. */
  lemma {:induction false} ResolveAfterSet(body: Json, p: seq<string>, value: Json, q: seq<string>)
    requires Resolve(body, p).Ok?
    ensures p <= q ==> Resolve(Set(body, p, value), q) == Resolve(value, q[|p|..])
    ensures q <= p ==> Resolve(body, q).Ok? && Resolve(Resolve(body, q).value, p[|q|..]).Ok?
    ensures q <= p ==> Resolve(Set(body, p, value), q) == Ok(Set(Resolve(body, q).value, p[|q|..], value))
    ensures Incomparable(p, q) ==> Resolve(Set(body, p, value), q) == Resolve(body, q)
  {
    if p == [] {
    } else if q == [] {
      assert p[0..] == p;
    } else {
      var child := Child(body, p[0]).value;
      ChildAfterSetChild(body, p[0], Set(child, p[1..], value), q[0]);
      if p[0] == q[0] {
        PrefixOfTails(p, q);
        PrefixOfTails(q, p);
        ResolveAfterSet(child, p[1..], value, q[1..]);
        if p <= q { assert q[1..][|p[1..]|..] == q[|p|..]; }
        if q <= p { assert p[1..][|q[1..]|..] == p[|q|..]; }
      }
    }
  }

  lemma SetChildrenCommute(parent: Json, a: string, u: Json, b: string, v: Json)
    requires Child(parent, a).Ok? && Child(parent, b).Ok? && a != b
    ensures Child(SetChild(parent, a, u), b).Ok? && Child(SetChild(parent, b, v), a).Ok?
    ensures SetChild(SetChild(parent, a, u), b, v) == SetChild(SetChild(parent, b, v), a, u)
  {
    ChildAfterSetChild(parent, a, u, b);
    ChildAfterSetChild(parent, b, v, a);
    if parent.Arr? {
      if ArrayIndex(a, |parent.items|) == ArrayIndex(b, |parent.items|) {
        ArrayIndexIsInjective(a, b, |parent.items|);
      }
    } else {
      assert parent.fields[a := u][b := v] == parent.fields[b := v][a := u];
    }
  }

  lemma SetChildTwice(parent: Json, token: string, u: Json, v: Json)
    requires Child(parent, token).Ok?
    ensures Child(SetChild(parent, token, u), token) == Ok(u)
    ensures SetChild(SetChild(parent, token, u), token, v) == SetChild(parent, token, v)
  {
    ChildAfterSetChild(parent, token, u, token);
    if parent.Obj? { assert parent.fields[token := u][token := v] == parent.fields[token := v]; }
  }

  lemma IncomparableTails(p: seq<string>, q: seq<string>)
    requires Incomparable(p, q)
    ensures p != [] && q != [] && (p[0] == q[0] ==> Incomparable(p[1..], q[1..]))
  {
    if p[0] == q[0] {
      PrefixOfTails(p, q);
      PrefixOfTails(q, p);
    }
  }

  lemma SetKeepsOther(body: Json, p: seq<string>, u: Json, q: seq<string>)
    requires Resolve(body, p).Ok? && Resolve(body, q).Ok? && Incomparable(p, q)
    ensures Resolve(Set(body, p, u), q) == Resolve(body, q)
  {
    ResolveAfterSet(body, p, u, q);
  }

  /** Sets at incomparable pointers commute. */
  lemma {:induction false} SetsCommute(body: Json, p: seq<string>, u: Json, q: seq<string>, v: Json)
    requires Resolve(body, p).Ok? && Resolve(body, q).Ok? && Incomparable(p, q)
    ensures Resolve(Set(body, p, u), q).Ok? && Resolve(Set(body, q, v), p).Ok?
    ensures Set(Set(body, p, u), q, v) == Set(Set(body, q, v), p, u)
    decreases |p|
  {
    IncomparableTails(p, q);
    hide Child, SetChild, Set, Resolve, Incomparable;
    SetKeepsOther(body, p, u, q);
    SetKeepsOther(body, q, v, p);
    SetStep(body, p, u);
    SetStep(body, q, v);
    var a, b := p[0], q[0];
    if a == b {
      SetStep(Set(body, p, u), q, v);
      SetStep(Set(body, q, v), p, u);
      var x := Child(body, a).value;
      var u', v' := Set(x, p[1..], u), Set(x, q[1..], v);
      SetsCommute(x, p[1..], u, q[1..], v);
      SetChildTwice(body, a, u', Set(u', q[1..], v));
      SetChildTwice(body, a, v', Set(v', p[1..], u));
    } else {
      SetsApartCommute(body, p, u, q, v);
    }
  }

  lemma SetsApartCommute(body: Json, p: seq<string>, u: Json, q: seq<string>, v: Json)
    requires p != [] && q != [] && p[0] != q[0] && Resolve(body, p).Ok? && Resolve(body, q).Ok?
    requires Resolve(Set(body, p, u), q).Ok? && Resolve(Set(body, q, v), p).Ok?
    ensures Set(Set(body, p, u), q, v) == Set(Set(body, q, v), p, u)
  {
    hide Child, SetChild, Set, Resolve;
    SetStep(body, p, u);
    SetStep(body, q, v);
    SetStep(Set(body, p, u), q, v);
    SetStep(Set(body, q, v), p, u);
    var a, b := p[0], q[0];
    var u', v' := Set(Child(body, a).value, p[1..], u), Set(Child(body, b).value, q[1..], v);
    ChildAfterSetChild(body, a, u', b);
    ChildAfterSetChild(body, b, v', a);
    SetChildrenCommute(body, a, u', b, v');
  }

  lemma SetStep(body: Json, p: seq<string>, v: Json)
    requires p != [] && Resolve(body, p).Ok?
    ensures Child(body, p[0]).Ok? && Resolve(Child(body, p[0]).value, p[1..]).Ok?
    ensures Set(body, p, v) == SetChild(body, p[0], Set(Child(body, p[0]).value, p[1..], v))
  {}

  /** What remove_field does to the container of its target. */
  function RemoveChild(parent: Json, token: string): Result<Json, Reason> {
    match parent
    case Obj(fields) => if token in fields then Ok(Obj(fields - {token})) else Err(TargetMissing)
    case Arr(items) =>
      var index := ArrayIndex(token, |items|);
      if index.Err? then Err(index.error) else Ok(Arr(items[..index.value] + items[index.value + 1..]))
    case _ => Err(TypeConflict)
  }

  /** The tree without the child of the container that the last token names. */
  function Remove(body: Json, container: seq<string>, token: string): Result<Json, Reason> {
    var parent := Resolve(body, container);
    if parent.Err? then parent
    else
      var rest := RemoveChild(parent.value, token);
      if rest.Err? then rest else Ok(Set(body, container, rest.value))
  }

  /** Removing succeeds exactly when the target is there. */
  lemma RemoveSucceedsIffPresent(body: Json, container: seq<string>, token: string)
    ensures var target, removed := Resolve(body, container + [token]), Remove(body, container, token);
      removed.Ok? == target.Ok? && (removed.Err? ==> removed.error == target.error)
  {
    hide Set;
    ResolveSplits(body, container, [token]);
    if Resolve(body, container).Ok? { ResolveOne(Resolve(body, container).value, token); }
  }

  lemma ResolveOne(body: Json, token: string)
    ensures Resolve(body, [token]) == Child(body, token)
  {}

  lemma SetOne(body: Json, token: string, v: Json)
    requires Child(body, token).Ok?
    ensures Resolve(body, [token]).Ok? && Set(body, [token], v) == SetChild(body, token, v)
  {
    ResolveOne(body, token);
  }

  lemma {:induction false} ResolveSplits(body: Json, p: seq<string>, r: seq<string>)
    ensures Resolve(body, p + r) == if Resolve(body, p).Ok? then Resolve(Resolve(body, p).value, r) else Resolve(body, p)
  {
    if p == [] {
      assert p + r == r;
    } else {
      assert (p + r)[1..] == p[1..] + r;
      if Child(body, p[0]).Ok? { ResolveSplits(Child(body, p[0]).value, p[1..], r); }
    }
  }

  lemma {:induction false} ValueOfDecimal(n: nat)
    ensures CanonicalDecimal(Decimal(n)) && DecimalValue(Decimal(n)) == n
    ensures n > 0 ==> Decimal(n)[0] != '0'
  {
    var d := Decimal(n);
    if n < 10 {
      assert DecimalValue(d[..0]) == 0;
    } else {
      ValueOfDecimal(n / 10);
      assert d[..|d| - 1] == Decimal(n / 10);
    }
  }

  /** The children of a container after one of them was removed: a field is gone, the
      other fields stay; an array is one shorter, and its later elements move up by one. */
  lemma ChildAfterRemoveChild(parent: Json, token: string, other: string, index: nat)
    requires RemoveChild(parent, token).Ok?
    ensures var shrunk := RemoveChild(parent, token).value;
      && (parent.Obj? ==> Child(shrunk, other) == if other == token then Err(TargetMissing) else Child(parent, other))
      && (parent.Arr? && index + 1 < |parent.items| && index + 1 < 0x1_0000_0000_0000_0000 ==>
          Child(shrunk, Decimal(index))
          == Child(parent, Decimal(if index < DecimalValue(token) then index else index + 1)))
      && (parent.Arr? ==>
          && shrunk.Arr? && |shrunk.items| == |parent.items| - 1
          && (index + 1 == |parent.items| && index < 0x1_0000_0000_0000_0000 ==>
              Child(shrunk, Decimal(index)) == Err(ArrayIndexOutOfBounds)))
  {
    ValueOfDecimal(index);
    ValueOfDecimal(index + 1);
  }

  /** What is removed is the element with that number, and no other. */
  lemma RemovedElement(items: seq<Json>, i: nat)
    requires i < |items| && i < 0x1_0000_0000_0000_0000
    ensures Child(Arr(items), Decimal(i)) == Ok(items[i])
    ensures RemoveChild(Arr(items), Decimal(i)).Ok? && RemoveChild(Arr(items), Decimal(i)).value.Arr?
    ensures var rest := RemoveChild(Arr(items), Decimal(i)).value.items;
      rest[..i] + [items[i]] + rest[i..] == items
  {
    hide ArrayIndex, Decimal;
    ArrayIndexNames(Decimal(i), |items|, i);
    var rest := items[..i] + items[i + 1..];
    assert rest[..i] == items[..i] && rest[i..] == items[i + 1..];
  }

  lemma ShorterArray(parent: Json, token: string)
    requires parent.Arr? && RemoveChild(parent, token).Ok?
    ensures var rest := RemoveChild(parent, token).value; rest.Arr? && |rest.items| == |parent.items| - 1
  {}

  /** After a removal nothing outside the container changes, and inside it exactly the
      children are those of ChildAfterRemoveChild. */
  lemma ResolveAfterRemove(body: Json, container: seq<string>, token: string, q: seq<string>)
    requires Remove(body, container, token).Ok?
    ensures var after := Remove(body, container, token).value;
      var shrunk := RemoveChild(Resolve(body, container).value, token).value;
      && (Incomparable(container, q) ==> Resolve(after, q) == Resolve(body, q))
      && Resolve(after, container + q) == Resolve(shrunk, q)
    ensures var parent := Resolve(body, container).value;
      parent.Arr? ==>
        && Resolve(Remove(body, container, token).value, container).Ok?
        && var rest := Resolve(Remove(body, container, token).value, container).value;
           rest.Arr? && |rest.items| == |parent.items| - 1
  {
    if Resolve(body, container).value.Arr? { ShorterArray(Resolve(body, container).value, token); }
    hide Set, RemoveChild;
    var shrunk := RemoveChild(Resolve(body, container).value, token).value;
    ResolveAfterSet(body, container, shrunk, q);
    ResolveAfterSet(body, container, shrunk, container + q);
    ResolveAfterSet(body, container, shrunk, container);
    assert (container + q)[|container|..] == q;
  }
}
