/** Template rendering as the prompt of lines 46-56 uses it: every `{name}` is replaced by the
    value bound to `name`, inserted as it is, and all other text is copied. */
module Templates {

  datatype RenderError =
    | MissingVariable(name: string)  // a placeholder whose name has no value
    | UnclosedPlaceholder            // a `{` with no `}` after it

  datatype Result<T> = Success(value: T) | Failure(error: RenderError)

  /** The first `}` at or after `i`, or `|t|` when there is none. */
  function FindClose(t: string, i: nat): (k: nat)
    requires i <= |t|
    ensures i <= k <= |t|
    ensures k < |t| ==> t[k] == '}'
    ensures forall j :: i <= j < k ==> t[j] != '}'
    decreases |t| - i
  {
    if i == |t| || t[i] == '}' then i else FindClose(t, i + 1)
  }

  /** `p` in front of a successful rendering; a failure passes through. */
  function Prefixed(p: string, r: Result<string>): Result<string> {
    match r
    case Success(v) => Success(p + v)
    case Failure(e) => Failure(e)
  }

  /** Substitutes every `{name}` of `t` by `vars[name]`, left to right. A placeholder whose
      name is unbound, or a `{` never closed, makes the rendering fail. Text without `{` renders
      to itself. */
  function Render(t: string, vars: map<string, string>): (r: Result<string>)
    ensures '{' !in t ==> r == Success(t)
    ensures r.Failure? && r.error.MissingVariable? ==> r.error.name !in vars
    decreases |t|
  {
    if t == [] then Success([])
    else if t[0] != '{' then
      assert '{' !in t ==> '{' !in t[1..];
      assert [t[0]] + t[1..] == t;
      Prefixed([t[0]], Render(t[1..], vars))
    else
      var k := FindClose(t, 1);
      if k == |t| then Failure(UnclosedPlaceholder)
      else if t[1..k] !in vars then Failure(MissingVariable(t[1..k]))
      else Prefixed(vars[t[1..k]], Render(t[k + 1..], vars))
  }

  /** Putting two prefixes in front, one after the other, puts their concatenation in front. */
  lemma PrefixedTwice(a: string, b: string, r: Result<string>)
    ensures Prefixed(a, Prefixed(b, r)) == Prefixed(a + b, r)
  {
    if r.Success? {
      assert a + (b + r.value) == (a + b) + r.value;
    }
  }

  /** Text without `{` in front of a template is copied in front of its rendering. */
  lemma {:induction false} RenderPlainFront(a: string, b: string, vars: map<string, string>)
    requires '{' !in a
    ensures Render(a + b, vars) == Prefixed(a, Render(b, vars))
    decreases |a|
  {
    if a == [] {
      assert a + b == b;
      if Render(b, vars).Success? {
        assert [] + Render(b, vars).value == Render(b, vars).value;
      }
    } else {
      var t := a + b;
      assert t[0] == a[0] && t[1..] == a[1..] + b;
      RenderPlainFront(a[1..], b, vars);
      PrefixedTwice([a[0]], a[1..], Render(b, vars));
      assert [a[0]] + a[1..] == a;
    }
  }

  /** The first `}` of a text is found wherever the search starts before it. */
  lemma {:induction false} FindCloseAt(t: string, i: nat, k: nat)
    requires i <= k < |t| && t[k] == '}'
    requires forall j :: i <= j < k ==> t[j] != '}'
    ensures FindClose(t, i) == k
    decreases k - i
  {
    if i < k {
      FindCloseAt(t, i + 1, k);
    }
  }

  /** The placeholder `{name}`. */
  function Slot(name: string): (t: string)
    ensures |t| == |name| + 2 && t[0] == '{' && t[|t| - 1] == '}'
    ensures t[1..|t| - 1] == name
  {
    "{" + name + "}"
  }

  /** A placeholder whose name is bound is replaced by its value. */
  lemma RenderPlaceholder(name: string, b: string, vars: map<string, string>)
    requires '}' !in name && name in vars
    ensures Render(Slot(name) + b, vars) == Prefixed(vars[name], Render(b, vars))
  {
    var t := Slot(name) + b;
    var k := |name| + 1;
    assert t[k] == '}';
    forall j | 1 <= j < k
      ensures t[j] != '}'
    {
      assert t[j] == name[j - 1];
    }
    FindCloseAt(t, 1, k);
    assert t[1..k] == name;
    assert t[k + 1..] == b;
  }

  /** A placeholder whose name is unbound makes the rendering fail, naming it. */
  lemma RenderMissing(name: string, b: string, vars: map<string, string>)
    requires '}' !in name && name !in vars
    ensures Render(Slot(name) + b, vars) == Failure(MissingVariable(name))
  {
    var t := Slot(name) + b;
    var k := |name| + 1;
    assert t[k] == '}';
    forall j | 1 <= j < k
      ensures t[j] != '}'
    {
      assert t[j] == name[j - 1];
    }
    FindCloseAt(t, 1, k);
    assert t[1..k] == name;
  }

  /** Plain text and a bound placeholder in front of a template that renders: the text, then
      the value, then that rendering. */
  lemma RenderFrontSlot(a: string, x: string, tail: string, v: string, vars: map<string, string>)
    requires '{' !in a && '}' !in x && x in vars
    requires Render(tail, vars) == Success(v)
    ensures Render(a + Slot(x) + tail, vars) == Success(a + vars[x] + v)
  {
    RenderPlaceholder(x, tail, vars);
    RenderPlainFront(a, Slot(x) + tail, vars);
    Regroup(a, Slot(x), tail);
    Regroup(a, vars[x], v);
  }

  /** A template with two bound placeholders between plain texts renders to the texts with the
      two values in their places. */
  lemma RenderTwoSlots(a: string, x: string, b: string, y: string, c: string, vars: map<string, string>)
    requires '{' !in a && '{' !in b && '{' !in c
    requires '}' !in x && '}' !in y && x in vars && y in vars
    ensures Render(a + Slot(x) + b + Slot(y) + c, vars) == Success(a + vars[x] + b + vars[y] + c)
  {
    var tail := b + Slot(y) + c;
    var v := b + vars[y] + c;
    RenderFrontSlot(b, y, c, c, vars);
    RenderFrontSlot(a, x, tail, v, vars);
    RegroupTail(a, Slot(x), b, Slot(y), c);
    RegroupTail(a, vars[x], b, vars[y], c);
  }

  /** Concatenation regrouped: the last two of three pieces taken together. */
  lemma Regroup(a: string, b: string, c: string)
    ensures a + b + c == a + (b + c)
  {
  }

  /** Concatenation regrouped: the last three of five pieces taken together. */
  lemma RegroupTail(a: string, b: string, c: string, d: string, e: string)
    ensures a + b + c + d + e == a + b + (c + d + e)
  {
  }
}
