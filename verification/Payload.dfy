/** Which strings of an OpenAI-style payload are redactable, and reading and rewriting them in one
    fixed order (app/schemas/openai.py). */
module Payload {
  import opened Entities

  datatype Json =
    | Null
    | Bool(b: bool)
    | Num(n: real)
    | Str(s: string)
    | Arr(items: seq<Json>)
    | Obj(fields: map<string, Json>)

  // ---- walkers -----------------------------------------------------------------------

  /** A test on an object that the walk below it leaves alone. */
  datatype Guard = TypeIn(types: set<string>) | HasAny(keys: set<string>)

  /** The shape of a walk: which parts of a value are visited, in which order. Each constructor
      leaves a value of any other kind alone. */
  datatype Walker =
    | Skip
    | Text                                                // a string
    | Each(item: Walker)                                  // the items of a list
    | Field(key: string, body: Walker, rest: Walker)      // a field of an object, then further fields
    | OnKind(str: Walker, list: Walker)                   // a string or a list
    | If(guard: Guard, yes: Walker, no: Walker)           // by a test on an object

  predicate Holds(g: Guard, x: Json) {
    x.Obj? && match g
    case TypeIn(types) => "type" in x.fields && x.fields["type"].Str? && x.fields["type"].s in types
    case HasAny(keys) => exists k | k in keys :: k in x.fields
  }

  /** The keys a chain of fields visits. */
  function Keys(w: Walker): set<string> {
    match w
    case Field(k, _, rest) => {k} + Keys(rest)
    case If(_, yes, no) => Keys(yes) + Keys(no)
    case _ => {}
  }

  predicate IsFieldChain(w: Walker) { w.Skip? || (w.Field? && IsFieldChain(w.rest)) }

  /** Fields of one object are visited once each; a test on the type does not look at a visited field. */
  predicate WellFormed(w: Walker) {
    match w
    case Skip => true
    case Text => true
    case Each(i) => WellFormed(i)
    case Field(k, b, rest) => WellFormed(b) && WellFormed(rest) && IsFieldChain(rest) && k !in Keys(rest)
    case OnKind(a, b) => WellFormed(a) && WellFormed(b) && a.Text? && b.Each?
    case If(g, yes, no) =>
      WellFormed(yes) && WellFormed(no) && IsFieldChain(yes) && IsFieldChain(no)
      && (g.TypeIn? ==> "type" !in Keys(yes) + Keys(no))
  }

  /** A stateful `fn` of the source: it threads its list and returns the replacement. */
  type Fn = (seq<string>, string) -> (seq<string>, string)

  /** Apply `fn` to every visited text, in order. */
  function Run(w: Walker, x: Json, fn: Fn, s: seq<string>): (seq<string>, Json)
    decreases w, 1, 0
  {
    match w
    case Skip => (s, x)
    case Text => if x.Str? then (fn(s, x.s).0, Str(fn(s, x.s).1)) else (s, x)
    case Each(i) => if x.Arr? then var (s', items) := RunEach(i, x.items, fn, s); (s', Arr(items)) else (s, x)
    case Field(k, b, rest) =>
      if x.Obj? && k in x.fields then
        var (s', v) := Run(b, x.fields[k], fn, s);
        Run(rest, Obj(x.fields[k := v]), fn, s')
      else Run(rest, x, fn, s)
    case OnKind(a, b) => if x.Str? then Run(a, x, fn, s) else if x.Arr? then Run(b, x, fn, s) else (s, x)
    case If(g, yes, no) => if Holds(g, x) then Run(yes, x, fn, s) else Run(no, x, fn, s)
  }

  function RunEach(w: Walker, items: seq<Json>, fn: Fn, s: seq<string>): (r: (seq<string>, seq<Json>))
    ensures |r.1| == |items|
    decreases w, 2, |items|
  {
    if items == [] then (s, []) else
      var (s1, x) := Run(w, items[0], fn, s);
      var (s2, xs) := RunEach(w, items[1..], fn, s1);
      (s2, [x] + xs)
  }

  // ---- what a walk reads and writes, without state -----------------------------------

  function Texts(w: Walker, x: Json): seq<string>
    decreases w, 1, 0
  {
    match w
    case Skip => []
    case Text => if x.Str? then [x.s] else []
    case Each(i) => if x.Arr? then TextsEach(i, x.items) else []
    case Field(k, b, rest) =>
      (if x.Obj? && k in x.fields then Texts(b, x.fields[k]) else []) + Texts(rest, x)
    case OnKind(a, b) => if x.Str? then Texts(a, x) else if x.Arr? then Texts(b, x) else []
    case If(g, yes, no) => if Holds(g, x) then Texts(yes, x) else Texts(no, x)
  }

  function TextsEach(w: Walker, items: seq<Json>): seq<string>
    decreases w, 2, |items|
  {
    if items == [] then [] else Texts(w, items[0]) + TextsEach(w, items[1..])
  }

  function Put(w: Walker, x: Json, ts: seq<string>): Json
    requires |ts| == |Texts(w, x)|
    decreases w, 1, 0
  {
    match w
    case Skip => x
    case Text => if x.Str? then Str(ts[0]) else x
    case Each(i) => if x.Arr? then Arr(PutEach(i, x.items, ts)) else x
    case Field(k, b, rest) =>
      if x.Obj? && k in x.fields then
        var n := |Texts(b, x.fields[k])|;
        var y := Put(rest, x, ts[n..]);
        if y.Obj? then Obj(y.fields[k := Put(b, x.fields[k], ts[..n])]) else y
      else Put(rest, x, ts)
    case OnKind(a, b) => if x.Str? then Put(a, x, ts) else if x.Arr? then Put(b, x, ts) else x
    case If(g, yes, no) => if Holds(g, x) then Put(yes, x, ts) else Put(no, x, ts)
  }

  function PutEach(w: Walker, items: seq<Json>, ts: seq<string>): (r: seq<Json>)
    requires |ts| == |TextsEach(w, items)|
    ensures |r| == |items|
    decreases w, 2, |items|
  {
    if items == [] then [] else
      var n := |Texts(w, items[0])|;
      [Put(w, items[0], ts[..n])] + PutEach(w, items[1..], ts[n..])
  }

  // ---- a chain of fields looks only at its own keys ----------------------------------

  lemma {:induction false} ChainFrame(w: Walker, f: map<string, Json>, k: string, v: Json)
    requires IsFieldChain(w) && k !in Keys(w) && k in f
    ensures Texts(w, Obj(f[k := v])) == Texts(w, Obj(f))
    decreases w
  {
    if w.Field? { ChainFrame(w.rest, f, k, v); }
  }

  lemma {:induction false} ChainKeepsObject(w: Walker, f: map<string, Json>, ts: seq<string>)
    requires IsFieldChain(w) && |ts| == |Texts(w, Obj(f))|
    ensures var y := Put(w, Obj(f), ts);
            y.Obj? && y.fields.Keys == f.Keys && forall k | k in f && k !in Keys(w) :: y.fields[k] == f[k]
    decreases w
  {
    if w.Field? {
      if w.key in f {
        var n := |Texts(w.body, f[w.key])|;
        ChainKeepsObject(w.rest, f, ts[n..]);
      } else {
        ChainKeepsObject(w.rest, f, ts);
      }
    }
  }

  lemma {:induction false} ChainPutFrame(w: Walker, f: map<string, Json>, k: string, v: Json, ts: seq<string>)
    requires IsFieldChain(w) && k !in Keys(w) && k in f && |ts| == |Texts(w, Obj(f))|
    ensures |ts| == |Texts(w, Obj(f[k := v]))|
    ensures var y := Put(w, Obj(f), ts); y.Obj? && Put(w, Obj(f[k := v]), ts) == Obj(y.fields[k := v])
    decreases w
  {
    ChainFrame(w, f, k, v);
    ChainKeepsObject(w, f, ts);
    if w.Field? {
      if w.key in f {
        var n := |Texts(w.body, f[w.key])|;
        ChainFrame(w.rest, f, k, v);
        ChainPutFrame(w.rest, f, k, v, ts[n..]);
        var y := Put(w.rest, Obj(f), ts[n..]);
        var u := Put(w.body, f[w.key], ts[..n]);
        assert y.fields[k := v][w.key := u] == y.fields[w.key := u][k := v];
      } else {
        ChainPutFrame(w.rest, f, k, v, ts);
      }
    }
  }

  // ---- the walk with a collecting and with a supplying fn ----------------------------

  function Collect(acc: seq<string>, t: string): (seq<string>, string) { (acc + [t], t) }

  function Supply(rest: seq<string>, t: string): (seq<string>, string) {
    if rest == [] then ([], t) else (rest[1..], rest[0])
  }

  lemma {:induction false} RunCollects(w: Walker, x: Json, acc: seq<string>)
    requires WellFormed(w)
    ensures Run(w, x, Collect, acc) == (acc + Texts(w, x), x)
    decreases w, 1, 0
  {
    match w
    case Skip => assert acc + [] == acc;
    case Text => if !x.Str? { assert acc + [] == acc; }
    case Each(i) => if x.Arr? { RunEachCollects(i, x.items, acc); } else { assert acc + [] == acc; }
    case Field(k, b, rest) =>
      if x.Obj? && k in x.fields {
        RunCollects(b, x.fields[k], acc);
        assert x.fields[k := x.fields[k]] == x.fields;
        var a := acc + Texts(b, x.fields[k]);
        RunCollects(rest, x, a);
        assert a + Texts(rest, x) == acc + (Texts(b, x.fields[k]) + Texts(rest, x));
      } else {
        RunCollects(rest, x, acc);
        assert [] + Texts(rest, x) == Texts(rest, x);
      }
    case OnKind(a, b) =>
      if x.Str? { RunCollects(a, x, acc); } else if x.Arr? { RunCollects(b, x, acc); } else { assert acc + [] == acc; }
    case If(g, yes, no) => if Holds(g, x) { RunCollects(yes, x, acc); } else { RunCollects(no, x, acc); }
  }

  lemma {:induction false} RunEachCollects(w: Walker, items: seq<Json>, acc: seq<string>)
    requires WellFormed(w)
    ensures RunEach(w, items, Collect, acc) == (acc + TextsEach(w, items), items)
    decreases w, 2, |items|
  {
    if items == [] {
      assert acc + [] == acc;
    } else {
      RunCollects(w, items[0], acc);
      RunEachCollects(w, items[1..], acc + Texts(w, items[0]));
      assert acc + Texts(w, items[0]) + TextsEach(w, items[1..])
          == acc + (Texts(w, items[0]) + TextsEach(w, items[1..]));
      assert [items[0]] + items[1..] == items;
    }
  }

  lemma {:induction false} RunSupplies(w: Walker, x: Json, ts: seq<string>, more: seq<string>)
    requires WellFormed(w) && |ts| == |Texts(w, x)|
    ensures Run(w, x, Supply, ts + more) == (more, Put(w, x, ts))
    decreases w, 1, 0
  {
    match w
    case Skip => assert ts + more == more;
    case Text =>
      if x.Str? { assert (ts + more)[0] == ts[0] && (ts + more)[1..] == more; } else { assert ts + more == more; }
    case Each(i) => if x.Arr? { RunEachSupplies(i, x.items, ts, more); } else { assert ts + more == more; }
    case Field(k, b, rest) =>
      if x.Obj? && k in x.fields {
        var n := |Texts(b, x.fields[k])|;
        assert ts + more == ts[..n] + (ts[n..] + more);
        RunSupplies(b, x.fields[k], ts[..n], ts[n..] + more);
        var v := Put(b, x.fields[k], ts[..n]);
        ChainFrame(rest, x.fields, k, v);
        RunSupplies(rest, Obj(x.fields[k := v]), ts[n..], more);
        ChainPutFrame(rest, x.fields, k, v, ts[n..]);
      } else {
        RunSupplies(rest, x, ts, more);
      }
    case OnKind(a, b) =>
      if x.Str? { RunSupplies(a, x, ts, more); }
      else if x.Arr? { RunSupplies(b, x, ts, more); }
      else { assert ts + more == more; }
    case If(g, yes, no) => if Holds(g, x) { RunSupplies(yes, x, ts, more); } else { RunSupplies(no, x, ts, more); }
  }

  lemma {:induction false} RunEachSupplies(w: Walker, items: seq<Json>, ts: seq<string>, more: seq<string>)
    requires WellFormed(w) && |ts| == |TextsEach(w, items)|
    ensures RunEach(w, items, Supply, ts + more) == (more, PutEach(w, items, ts))
    decreases w, 2, |items|
  {
    if items == [] {
      assert ts + more == more;
    } else {
      var n := |Texts(w, items[0])|;
      assert ts + more == ts[..n] + (ts[n..] + more);
      RunSupplies(w, items[0], ts[..n], ts[n..] + more);
      RunEachSupplies(w, items[1..], ts[n..], more);
    }
  }

  // ---- lens laws ---------------------------------------------------------------------

  lemma GuardStable(g: Guard, w: Walker, x: Json, ts: seq<string>)
    requires WellFormed(w) && IsFieldChain(w) && |ts| == |Texts(w, x)| && (g.TypeIn? ==> "type" !in Keys(w))
    ensures Holds(g, Put(w, x, ts)) == Holds(g, x)
  {
    if x.Obj? { ChainKeepsObject(w, x.fields, ts); } else { ChainOnOther(w, x, ts); }
  }

  lemma {:induction false} ChainOnOther(w: Walker, x: Json, ts: seq<string>)
    requires IsFieldChain(w) && !x.Obj? && |ts| == |Texts(w, x)|
    ensures Put(w, x, ts) == x && Texts(w, x) == []
    decreases w
  {
    if w.Field? { ChainOnOther(w.rest, x, ts); }
  }

  /** Reading after writing gives what was written. */
  lemma {:induction false} PutGet(w: Walker, x: Json, ts: seq<string>)
    requires WellFormed(w) && |ts| == |Texts(w, x)|
    ensures Texts(w, Put(w, x, ts)) == ts
    decreases w, 1, 0
  {
    match w
    case Skip =>
    case Text =>
    case Each(i) => if x.Arr? { PutGetEach(i, x.items, ts); }
    case Field(k, b, rest) =>
      if x.Obj? && k in x.fields {
        var n := |Texts(b, x.fields[k])|;
        PutGet(b, x.fields[k], ts[..n]);
        PutGet(rest, x, ts[n..]);
        PutGetField(k, b, rest, x, ts, n);
      } else {
        PutGet(rest, x, ts);
        if x.Obj? { ChainKeepsObject(rest, x.fields, ts); } else { ChainOnOther(rest, x, ts); }
        assert [] + ts == ts;
      }
    case OnKind(a, b) => if x.Str? { PutGet(a, x, ts); } else if x.Arr? { PutGet(b, x, ts); }
    case If(g, yes, no) =>
      if Holds(g, x) { PutGet(yes, x, ts); GuardStable(g, yes, x, ts); }
      else { PutGet(no, x, ts); GuardStable(g, no, x, ts); }
  }

  /** A present field and the chain behind it, written and read. */
  lemma PutGetField(k: string, b: Walker, rest: Walker, x: Json, ts: seq<string>, n: nat)
    requires WellFormed(Field(k, b, rest)) && x.Obj? && k in x.fields && |ts| == |Texts(Field(k, b, rest), x)|
    requires n == |Texts(b, x.fields[k])| && n <= |ts|
    requires Texts(b, Put(b, x.fields[k], ts[..n])) == ts[..n] && Texts(rest, Put(rest, x, ts[n..])) == ts[n..]
    ensures Texts(Field(k, b, rest), Put(Field(k, b, rest), x, ts)) == ts
  {
    ChainKeepsObject(rest, x.fields, ts[n..]);
    ChainFrame(rest, Put(rest, x, ts[n..]).fields, k, Put(b, x.fields[k], ts[..n]));
    TakeDrop(ts, n);
  }

  lemma {:induction false} PutGetEach(w: Walker, items: seq<Json>, ts: seq<string>)
    requires WellFormed(w) && |ts| == |TextsEach(w, items)|
    ensures TextsEach(w, PutEach(w, items, ts)) == ts
    decreases w, 2, |items|
  {
    if items != [] {
      var n := |Texts(w, items[0])|;
      PutGet(w, items[0], ts[..n]);
      PutGetEach(w, items[1..], ts[n..]);
      TextsEachCons(w, Put(w, items[0], ts[..n]), PutEach(w, items[1..], ts[n..]));
      TakeDrop(ts, n);
    }
  }

  lemma TextsEachCons(w: Walker, x: Json, items: seq<Json>)
    ensures TextsEach(w, [x] + items) == Texts(w, x) + TextsEach(w, items)
  {
    assert ([x] + items)[1..] == items;
  }

  lemma TakeDrop<T>(xs: seq<T>, n: nat)
    requires n <= |xs|
    ensures xs[..n] + xs[n..] == xs
  {
  }

  /** Writing back what was read changes nothing. */
  lemma {:induction false} GetPut(w: Walker, x: Json)
    requires WellFormed(w)
    ensures Put(w, x, Texts(w, x)) == x
    decreases w, 1, 0
  {
    match w
    case Skip =>
    case Text =>
    case Each(i) => if x.Arr? { GetPutEach(i, x.items); }
    case Field(k, b, rest) =>
      if x.Obj? && k in x.fields {
        var a, r := Texts(b, x.fields[k]), Texts(rest, x);
        assert (a + r)[..|a|] == a && (a + r)[|a|..] == r;
        GetPut(b, x.fields[k]);
        GetPut(rest, x);
        assert x.fields[k := x.fields[k]] == x.fields;
      } else {
        GetPut(rest, x);
        assert [] + Texts(rest, x) == Texts(rest, x);
      }
    case OnKind(a, b) => if x.Str? { GetPut(a, x); } else if x.Arr? { GetPut(b, x); }
    case If(g, yes, no) => if Holds(g, x) { GetPut(yes, x); } else { GetPut(no, x); }
  }

  lemma {:induction false} GetPutEach(w: Walker, items: seq<Json>)
    requires WellFormed(w)
    ensures PutEach(w, items, TextsEach(w, items)) == items
    decreases w, 2, |items|
  {
    if items != [] {
      var a, r := Texts(w, items[0]), TextsEach(w, items[1..]);
      assert (a + r)[..|a|] == a && (a + r)[|a|..] == r;
      GetPut(w, items[0]);
      GetPutEach(w, items[1..]);
    }
  }

  /** The second of two writes wins. */
  lemma {:induction false} PutPut(w: Walker, x: Json, ts: seq<string>, us: seq<string>)
    requires WellFormed(w) && |ts| == |us| == |Texts(w, x)|
    ensures |us| == |Texts(w, Put(w, x, ts))| && Put(w, Put(w, x, ts), us) == Put(w, x, us)
    decreases w, 1, 0
  {
    PutGet(w, x, ts);
    match w
    case Skip =>
    case Text =>
    case Each(i) => if x.Arr? { PutPutEach(i, x.items, ts, us); }
    case Field(k, b, rest) =>
      if x.Obj? && k in x.fields {
        var n := |Texts(b, x.fields[k])|;
        var v, y := Put(b, x.fields[k], ts[..n]), Put(rest, x, ts[n..]);
        PutGet(b, x.fields[k], ts[..n]);
        PutGet(rest, x, ts[n..]);
        PutPut(b, x.fields[k], ts[..n], us[..n]);
        PutPut(rest, x, ts[n..], us[n..]);
        ChainKeepsObject(rest, x.fields, ts[n..]);
        ChainKeepsObject(rest, y.fields, us[n..]);
        ChainPutFrame(rest, y.fields, k, v, us[n..]);
        var z := Put(rest, x, us[n..]);
        assert z.fields[k := v][k := Put(b, x.fields[k], us[..n])] == z.fields[k := Put(b, x.fields[k], us[..n])];
      } else {
        PutPut(rest, x, ts, us);
        if x.Obj? { ChainKeepsObject(rest, x.fields, ts); } else { ChainOnOther(rest, x, ts); }
      }
    case OnKind(a, b) => if x.Str? { PutPut(a, x, ts, us); } else if x.Arr? { PutPut(b, x, ts, us); }
    case If(g, yes, no) =>
      if Holds(g, x) { PutPut(yes, x, ts, us); GuardStable(g, yes, x, ts); }
      else { PutPut(no, x, ts, us); GuardStable(g, no, x, ts); }
  }

  lemma {:induction false} PutPutEach(w: Walker, items: seq<Json>, ts: seq<string>, us: seq<string>)
    requires WellFormed(w) && |ts| == |us| == |TextsEach(w, items)|
    ensures |us| == |TextsEach(w, PutEach(w, items, ts))|
    ensures PutEach(w, PutEach(w, items, ts), us) == PutEach(w, items, us)
    decreases w, 2, |items|
  {
    PutGetEach(w, items, ts);
    if items != [] {
      var n := |Texts(w, items[0])|;
      PutGet(w, items[0], ts[..n]);
      PutPut(w, items[0], ts[..n], us[..n]);
      PutPutEach(w, items[1..], ts[n..], us[n..]);
      assert PutEach(w, items, ts)[1..] == PutEach(w, items[1..], ts[n..]);
    }
  }

  // ---- everything else is untouched --------------------------------------------------

  datatype Step = Key(k: string) | Index(i: nat)

  function At(x: Json, p: seq<Step>): Option<Json> {
    if p == [] then Some(x)
    else match p[0]
    case Key(k) => if x.Obj? && k in x.fields then At(x.fields[k], p[1..]) else None
    case Index(i) => if x.Arr? && i < |x.items| then At(x.items[i], p[1..]) else None
  }

  /** A value without its children. */
  datatype Shape = NullShape | BoolShape(b: bool) | NumShape(n: real) | StrShape(s: string)
                 | ArrShape(length: nat) | ObjShape(keys: set<string>)

  function ShapeOf(x: Json): Shape {
    match x
    case Null => NullShape
    case Bool(b) => BoolShape(b)
    case Num(n) => NumShape(n)
    case Str(s) => StrShape(s)
    case Arr(items) => ArrShape(|items|)
    case Obj(f) => ObjShape(f.Keys)
  }

  function ShapeAt(x: Json, p: seq<Step>): Option<Shape> {
    match At(x, p)
    case None => None
    case Some(v) => Some(ShapeOf(v))
  }

  /** The walk visits a text at position `p`. */
  predicate IsTextAt(w: Walker, x: Json, p: seq<Step>)
    decreases w
  {
    match w
    case Skip => false
    case Text => p == [] && x.Str?
    case Each(item) =>
      x.Arr? && p != [] && p[0].Index? && p[0].i < |x.items| && IsTextAt(item, x.items[p[0].i], p[1..])
    case Field(k, b, rest) =>
      || (x.Obj? && k in x.fields && p != [] && p[0] == Key(k) && IsTextAt(b, x.fields[k], p[1..]))
      || IsTextAt(rest, x, p)
    case OnKind(a, b) => (x.Str? && IsTextAt(a, x, p)) || (x.Arr? && IsTextAt(b, x, p))
    case If(g, yes, no) => if Holds(g, x) then IsTextAt(yes, x, p) else IsTextAt(no, x, p)
  }

  /** At every other position the value has the same kind, the same scalar, the same length or the
      same keys as before. */
  lemma {:induction false} Untouched(w: Walker, x: Json, ts: seq<string>, p: seq<Step>)
    requires WellFormed(w) && |ts| == |Texts(w, x)| && !IsTextAt(w, x, p)
    ensures ShapeAt(Put(w, x, ts), p) == ShapeAt(x, p)
    decreases w, |p|
  {
    match w
    case Skip =>
    case Text =>
    case Each(item) =>
      if x.Arr? && p != [] && p[0].Index? && p[0].i < |x.items| { UntouchedEach(item, x.items, ts, p[0].i, p[1..]); }
    case Field(k, b, rest) =>
      if x.Obj? && k in x.fields {
        var n := |Texts(b, x.fields[k])|;
        ChainKeepsObject(rest, x.fields, ts[n..]);
        var y := Put(rest, x, ts[n..]);
        assert y.fields[k := Put(b, x.fields[k], ts[..n])].Keys == x.fields.Keys;
        if p == [] {
        } else if p[0] == Key(k) {
          Untouched(b, x.fields[k], ts[..n], p[1..]);
        } else {
          Untouched(rest, x, ts[n..], p);
        }
      } else {
        Untouched(rest, x, ts, p);
      }
    case OnKind(a, b) => if x.Str? { Untouched(a, x, ts, p); } else if x.Arr? { Untouched(b, x, ts, p); }
    case If(g, yes, no) => if Holds(g, x) { Untouched(yes, x, ts, p); } else { Untouched(no, x, ts, p); }
  }

  lemma {:induction false} UntouchedEach(w: Walker, items: seq<Json>, ts: seq<string>, i: nat, p: seq<Step>)
    requires WellFormed(w) && |ts| == |TextsEach(w, items)| && i < |items| && !IsTextAt(w, items[i], p)
    ensures ShapeAt(PutEach(w, items, ts)[i], p) == ShapeAt(items[i], p)
    decreases w, |p| + 1, |items|
  {
    var n := |Texts(w, items[0])|;
    if i == 0 { Untouched(w, items[0], ts[..n], p); } else { UntouchedEach(w, items[1..], ts[n..], i - 1, p); }
  }

  // ---- the positions of the texts ----------------------------------------------------

  function Prefixed(step: Step, ps: seq<seq<Step>>): (r: seq<seq<Step>>)
    ensures |r| == |ps| && forall i | 0 <= i < |ps| :: r[i] == [step] + ps[i]
  {
    seq(|ps|, i requires 0 <= i < |ps| => [step] + ps[i])
  }

  /** Where the walk finds its texts, in walk order. */
  function Positions(w: Walker, x: Json): seq<seq<Step>>
    decreases w, 1, 0
  {
    match w
    case Skip => []
    case Text => if x.Str? then [[]] else []
    case Each(item) => if x.Arr? then PositionsEach(item, x.items, 0) else []
    case Field(k, b, rest) =>
      (if x.Obj? && k in x.fields then Prefixed(Key(k), Positions(b, x.fields[k])) else []) + Positions(rest, x)
    case OnKind(a, b) => if x.Str? then Positions(a, x) else if x.Arr? then Positions(b, x) else []
    case If(g, yes, no) => if Holds(g, x) then Positions(yes, x) else Positions(no, x)
  }

  /** The first of `items` is number `at` of its list. */
  function PositionsEach(w: Walker, items: seq<Json>, at: nat): seq<seq<Step>>
    decreases w, 2, |items|
  {
    if items == [] then [] else Prefixed(Index(at), Positions(w, items[0])) + PositionsEach(w, items[1..], at + 1)
  }

  /** `texts` are the strings at the positions `ps`. */
  ghost predicate StringsAt(x: Json, ps: seq<seq<Step>>, texts: seq<string>) {
    |ps| == |texts| && forall i | 0 <= i < |ps| :: At(x, ps[i]) == Some(Str(texts[i]))
  }

  lemma AtPrefixed(x: Json, step: Step, y: Json, ps: seq<seq<Step>>, texts: seq<string>)
    requires StringsAt(y, ps, texts) && At(x, [step]) == Some(y)
    ensures StringsAt(x, Prefixed(step, ps), texts)
  {
    forall i | 0 <= i < |ps| ensures At(x, [step] + ps[i]) == Some(Str(texts[i])) {
      assert ([step] + ps[i])[0] == step && ([step] + ps[i])[1..] == ps[i];
      assert [step][1..] == [];
    }
  }

  lemma StringsConcat(x: Json, ps: seq<seq<Step>>, qs: seq<seq<Step>>, texts: seq<string>, more: seq<string>)
    requires StringsAt(x, ps, texts) && StringsAt(x, qs, more)
    ensures StringsAt(x, ps + qs, texts + more)
  {
  }

  /** Reading the texts is reading the strings at the positions. */
  lemma {:induction false} TextsAtPositions(w: Walker, x: Json)
    ensures StringsAt(x, Positions(w, x), Texts(w, x))
    decreases w, 1, 0
  {
    match w
    case Skip =>
    case Text =>
    case Each(item) => if x.Arr? { TextsAtPositionsEach(item, x, 0); assert x.items[0..] == x.items; }
    case Field(k, b, rest) =>
      TextsAtPositions(rest, x);
      if x.Obj? && k in x.fields {
        TextsAtPositions(b, x.fields[k]);
        assert At(x, [Key(k)]) == Some(x.fields[k]) by { assert [Key(k)][1..] == []; }
        AtPrefixed(x, Key(k), x.fields[k], Positions(b, x.fields[k]), Texts(b, x.fields[k]));
        StringsConcat(x, Prefixed(Key(k), Positions(b, x.fields[k])), Positions(rest, x), Texts(b, x.fields[k]), Texts(rest, x));
      } else {
        assert [] + Positions(rest, x) == Positions(rest, x) && [] + Texts(rest, x) == Texts(rest, x);
      }
    case OnKind(a, b) => if x.Str? { TextsAtPositions(a, x); } else if x.Arr? { TextsAtPositions(b, x); }
    case If(g, yes, no) => if Holds(g, x) { TextsAtPositions(yes, x); } else { TextsAtPositions(no, x); }
  }

  lemma {:induction false} TextsAtPositionsEach(w: Walker, x: Json, at: nat)
    requires x.Arr? && at <= |x.items|
    ensures StringsAt(x, PositionsEach(w, x.items[at..], at), TextsEach(w, x.items[at..]))
    decreases w, 2, |x.items| - at
  {
    if at < |x.items| {
      var items := x.items[at..];
      assert items[0] == x.items[at] && items[1..] == x.items[at + 1..];
      TextsAtPositions(w, items[0]);
      TextsAtPositionsEach(w, x, at + 1);
      assert At(x, [Index(at)]) == Some(items[0]) by { assert [Index(at)][1..] == []; }
      AtPrefixed(x, Index(at), items[0], Positions(w, items[0]), Texts(w, items[0]));
      StringsConcat(x, Prefixed(Index(at), Positions(w, items[0])), PositionsEach(w, items[1..], at + 1),
                    Texts(w, items[0]), TextsEach(w, items[1..]));
    }
  }

  lemma InPrefixed(step: Step, ps: seq<seq<Step>>, p: seq<Step>)
    ensures p in Prefixed(step, ps) <==> p != [] && p[0] == step && p[1..] in ps
  {
    if p in Prefixed(step, ps) {
      var i :| 0 <= i < |ps| && Prefixed(step, ps)[i] == p;
      assert p[1..] == ps[i];
    }
    if p != [] && p[0] == step && p[1..] in ps {
      var i :| 0 <= i < |ps| && ps[i] == p[1..];
      assert Prefixed(step, ps)[i] == [step] + p[1..] == p;
    }
  }

  /** The positions are those the walk visits. */
  lemma {:induction false} PositionsVisited(w: Walker, x: Json, p: seq<Step>)
    ensures p in Positions(w, x) <==> IsTextAt(w, x, p)
    decreases w, 1, 0
  {
    match w
    case Skip =>
    case Text =>
    case Each(item) => if x.Arr? { PositionsVisitedEach(item, x.items, 0, p); }
    case Field(k, b, rest) =>
      PositionsVisited(rest, x, p);
      if x.Obj? && k in x.fields {
        InPrefixed(Key(k), Positions(b, x.fields[k]), p);
        if p != [] { PositionsVisited(b, x.fields[k], p[1..]); }
      }
    case OnKind(a, b) => if x.Str? { PositionsVisited(a, x, p); } else if x.Arr? { PositionsVisited(b, x, p); }
    case If(g, yes, no) => if Holds(g, x) { PositionsVisited(yes, x, p); } else { PositionsVisited(no, x, p); }
  }

  lemma {:induction false} PositionsVisitedEach(w: Walker, items: seq<Json>, at: nat, p: seq<Step>)
    ensures p in PositionsEach(w, items, at) <==>
              p != [] && p[0].Index? && at <= p[0].i < at + |items| && IsTextAt(w, items[p[0].i - at], p[1..])
    decreases w, 2, |items|
  {
    if items != [] {
      InPrefixed(Index(at), Positions(w, items[0]), p);
      PositionsVisitedEach(w, items[1..], at + 1, p);
      if p != [] { PositionsVisited(w, items[0], p[1..]); }
    }
  }

  ghost predicate Distinct<T(!new)>(xs: seq<T>) { forall i, j | 0 <= i < j < |xs| :: xs[i] != xs[j] }

  lemma DistinctConcat<T(!new)>(xs: seq<T>, ys: seq<T>)
    requires Distinct(xs) && Distinct(ys) && forall x | x in xs :: x !in ys
    ensures Distinct(xs + ys)
  {
    forall i, j | 0 <= i < j < |xs + ys| ensures (xs + ys)[i] != (xs + ys)[j] {
      if i < |xs| <= j { assert xs[i] in xs && ys[j - |xs|] in ys; }
    }
  }

  lemma DistinctPrefixed(step: Step, ps: seq<seq<Step>>)
    requires Distinct(ps)
    ensures Distinct(Prefixed(step, ps))
  {
    forall i, j | 0 <= i < j < |ps| ensures [step] + ps[i] != [step] + ps[j] {
      assert ([step] + ps[i])[1..] == ps[i] && ([step] + ps[j])[1..] == ps[j];
    }
  }

  /** A chain of fields visits positions below its own keys. */
  lemma {:induction false} ChainBelowKeys(w: Walker, x: Json, p: seq<Step>)
    requires IsFieldChain(w) && p in Positions(w, x)
    ensures p != [] && p[0].Key? && p[0].k in Keys(w)
    decreases w
  {
    if w.Field? {
      if x.Obj? && w.key in x.fields { InPrefixed(Key(w.key), Positions(w.body, x.fields[w.key]), p); }
      if p in Positions(w.rest, x) { ChainBelowKeys(w.rest, x, p); }
    }
  }

  /** No position is visited twice. */
  lemma {:induction false} PositionsDistinct(w: Walker, x: Json)
    requires WellFormed(w)
    ensures Distinct(Positions(w, x))
    decreases w, 1, 0
  {
    match w
    case Skip =>
    case Text =>
    case Each(item) => if x.Arr? { PositionsDistinctEach(item, x.items, 0); }
    case Field(k, b, rest) =>
      PositionsDistinct(rest, x);
      if x.Obj? && k in x.fields {
        PositionsDistinct(b, x.fields[k]);
        var ps, qs := Prefixed(Key(k), Positions(b, x.fields[k])), Positions(rest, x);
        DistinctPrefixed(Key(k), Positions(b, x.fields[k]));
        forall p | p in ps ensures p !in qs {
          InPrefixed(Key(k), Positions(b, x.fields[k]), p);
          if p in qs { ChainBelowKeys(rest, x, p); }
        }
        DistinctConcat(ps, qs);
      } else {
        assert [] + Positions(rest, x) == Positions(rest, x);
      }
    case OnKind(a, b) => if x.Str? { PositionsDistinct(a, x); } else if x.Arr? { PositionsDistinct(b, x); }
    case If(g, yes, no) => if Holds(g, x) { PositionsDistinct(yes, x); } else { PositionsDistinct(no, x); }
  }

  lemma {:induction false} PositionsDistinctEach(w: Walker, items: seq<Json>, at: nat)
    requires WellFormed(w)
    ensures Distinct(PositionsEach(w, items, at))
    decreases w, 2, |items|
  {
    if items != [] {
      PositionsDistinct(w, items[0]);
      PositionsDistinctEach(w, items[1..], at + 1);
      DistinctPrefixed(Index(at), Positions(w, items[0]));
      var ps, qs := Prefixed(Index(at), Positions(w, items[0])), PositionsEach(w, items[1..], at + 1);
      forall p | p in ps ensures p !in qs {
        InPrefixed(Index(at), Positions(w, items[0]), p);
        PositionsVisitedEach(w, items[1..], at + 1, p);
      }
      DistinctConcat(ps, qs);
    }
  }

  lemma {:induction false} ChainPositionsFrame(w: Walker, f: map<string, Json>, k: string, v: Json)
    requires IsFieldChain(w) && k !in Keys(w) && k in f
    ensures Positions(w, Obj(f[k := v])) == Positions(w, Obj(f))
    decreases w
  {
    if w.Field? { ChainPositionsFrame(w.rest, f, k, v); }
  }

  /** Rewriting moves no text. */
  lemma {:induction false} PositionsStay(w: Walker, x: Json, ts: seq<string>)
    requires WellFormed(w) && |ts| == |Texts(w, x)|
    ensures Positions(w, Put(w, x, ts)) == Positions(w, x)
    decreases w, 1, 0
  {
    match w
    case Skip =>
    case Text =>
    case Each(item) => if x.Arr? { PositionsStayEach(item, x.items, ts, 0); }
    case Field(k, b, rest) =>
      if x.Obj? && k in x.fields {
        var n := |Texts(b, x.fields[k])|;
        PositionsStay(b, x.fields[k], ts[..n]);
        PositionsStay(rest, x, ts[n..]);
        ChainKeepsObject(rest, x.fields, ts[n..]);
        ChainPositionsFrame(rest, Put(rest, x, ts[n..]).fields, k, Put(b, x.fields[k], ts[..n]));
      } else {
        PositionsStay(rest, x, ts);
        if x.Obj? { ChainKeepsObject(rest, x.fields, ts); } else { ChainOnOther(rest, x, ts); }
      }
    case OnKind(a, b) => if x.Str? { PositionsStay(a, x, ts); } else if x.Arr? { PositionsStay(b, x, ts); }
    case If(g, yes, no) =>
      if Holds(g, x) { PositionsStay(yes, x, ts); GuardStable(g, yes, x, ts); }
      else { PositionsStay(no, x, ts); GuardStable(g, no, x, ts); }
  }

  lemma {:induction false} PositionsStayEach(w: Walker, items: seq<Json>, ts: seq<string>, at: nat)
    requires WellFormed(w) && |ts| == |TextsEach(w, items)|
    ensures PositionsEach(w, PutEach(w, items, ts), at) == PositionsEach(w, items, at)
    decreases w, 2, |items|
  {
    if items != [] {
      var n := |Texts(w, items[0])|;
      PositionsStay(w, items[0], ts[..n]);
      PositionsStayEach(w, items[1..], ts[n..], at + 1);
      assert PutEach(w, items, ts)[1..] == PutEach(w, items[1..], ts[n..]);
    }
  }

  // ---- the redactable texts of a request ---------------------------------------------

  const TEXT_PART_TYPES: set<string> := {"text", "input_text", "output_text"}

  const PART := If(TypeIn(TEXT_PART_TYPES), Field("text", Text, Skip), Skip)
  const CONTENT := OnKind(Text, Each(PART))
  const ARGUMENTS := Field("arguments", Text, Skip)
  const TOOL_CALL := Field("function", ARGUMENTS, Skip)
  const MESSAGE :=
    Field("content", CONTENT, Field("tool_calls", Each(TOOL_CALL), Field("function_call", ARGUMENTS, Skip)))
  const INPUT_ITEM := If(HasAny({"content", "tool_calls"}), MESSAGE, Field("text", Text, Skip))
  const PAYLOAD := Field("messages", Each(MESSAGE), Field("input", OnKind(Text, Each(INPUT_ITEM)), Skip))

  lemma PayloadWellFormed()
    ensures WellFormed(PAYLOAD)
  {
    assert Keys(ARGUMENTS) == {"arguments"} + {};
    assert WellFormed(PART) && WellFormed(TOOL_CALL) && IsFieldChain(MESSAGE);
    assert WellFormed(Field("tool_calls", Each(TOOL_CALL), Field("function_call", ARGUMENTS, Skip)));
    assert WellFormed(MESSAGE);
    assert WellFormed(INPUT_ITEM);
  }

  /** `value or []` can be looped over: only a number or `True` cannot. */
  predicate Iterable(v: Json) {
    !(v.Bool? && v.b) && !(v.Num? && v.n != 0.0)
  }

  predicate MessageOk(m: Json) {
    m.Obj? && "tool_calls" in m.fields ==> Iterable(m.fields["tool_calls"])
  }

  /** No loop of the walk raises a TypeError. */
  predicate Walkable(payload: map<string, Json>) {
    && ("messages" in payload ==>
          Iterable(payload["messages"])
          && (payload["messages"].Arr? ==> forall m | m in payload["messages"].items :: MessageOk(m)))
    && ("input" in payload && payload["input"].Arr? ==> forall m | m in payload["input"].items :: MessageOk(m))
  }

  /** The redactable texts of a request, in walk order. */
  function RequestTexts(payload: map<string, Json>): seq<string> { Texts(PAYLOAD, Obj(payload)) }

  /** The request with those texts replaced. */
  function WithTexts(payload: map<string, Json>, ts: seq<string>): Json
    requires |ts| == |RequestTexts(payload)|
  {
    Put(PAYLOAD, Obj(payload), ts)
  }

  /** Reading and rewriting form a lawful lens, and nothing but the texts changes. */
  lemma RequestLens(payload: map<string, Json>, ts: seq<string>, us: seq<string>)
    requires |ts| == |us| == |RequestTexts(payload)|
    ensures WithTexts(payload, RequestTexts(payload)) == Obj(payload)
    ensures var y := WithTexts(payload, ts);
            y.Obj? && RequestTexts(y.fields) == ts && WithTexts(y.fields, us) == WithTexts(payload, us)
    ensures forall p | !IsTextAt(PAYLOAD, Obj(payload), p) ::
              ShapeAt(WithTexts(payload, ts), p) == ShapeAt(Obj(payload), p)
  {
    PayloadWellFormed();
    GetPut(PAYLOAD, Obj(payload));
    PutGet(PAYLOAD, Obj(payload), ts);
    PutPut(PAYLOAD, Obj(payload), ts, us);
    ChainKeepsObject(PAYLOAD, payload, ts);
    forall p | !IsTextAt(PAYLOAD, Obj(payload), p)
      ensures ShapeAt(WithTexts(payload, ts), p) == ShapeAt(Obj(payload), p)
    {
      Untouched(PAYLOAD, Obj(payload), ts, p);
    }
  }

  // ---- which positions those are -----------------------------------------------------

  predicate StringAt(x: Json, p: seq<Step>) { At(x, p).Some? && At(x, p).value.Str? }

  predicate TextTyped(x: Json) {
    x.Obj? && "type" in x.fields
    && (x.fields["type"] == Str("text") || x.fields["type"] == Str("input_text") || x.fields["type"] == Str("output_text"))
  }

  predicate PartAt(x: Json, p: seq<Step>) { At(x, p).Some? && TextTyped(At(x, p).value) }

  /** Below a message: a string content, the text of a content part of a text type, and the arguments of tool
      calls and of the legacy function call. */
  predicate MessageText(m: Json, q: seq<Step>) {
    StringAt(m, q) && (
      || q == [Key("content")]
      || (|q| == 3 && q[0] == Key("content") && q[1].Index? && q[2] == Key("text") && PartAt(m, q[..2]))
      || (|q| == 4 && q[0] == Key("tool_calls") && q[1].Index? && q[2] == Key("function") && q[3] == Key("arguments"))
      || q == [Key("function_call"), Key("arguments")])
  }

  /** Below an item of `input`: a message if it has a content or tool calls, otherwise its text. */
  predicate ItemText(item: Json, q: seq<Step>) {
    item.Obj? && if "content" in item.fields || "tool_calls" in item.fields then MessageText(item, q)
                 else q == [Key("text")] && StringAt(item, q)
  }

  /** Everything that could carry a user's text: in the messages, a string `input`, and in the items of `input`. */
  predicate Redactable(x: Json, p: seq<Step>) {
    || (|p| >= 2 && p[0] == Key("messages") && p[1].Index? && At(x, p[..2]).Some? && MessageText(At(x, p[..2]).value, p[2..]))
    || (p == [Key("input")] && StringAt(x, p))
    || (|p| >= 2 && p[0] == Key("input") && p[1].Index? && At(x, p[..2]).Some? && ItemText(At(x, p[..2]).value, p[2..]))
  }

  lemma AtOne(x: Json, a: Step)
    ensures At(x, [a]) == match a
                          case Key(k) => if x.Obj? && k in x.fields then Some(x.fields[k]) else None
                          case Index(i) => if x.Arr? && i < |x.items| then Some(x.items[i]) else None
  {
    assert [a][1..] == [];
  }

  lemma AtMore(x: Json, a: Step, q: seq<Step>)
    ensures At(x, [a] + q) == if At(x, [a]).Some? then At(At(x, [a]).value, q) else None
  {
    AtOne(x, a);
    assert ([a] + q)[1..] == q;
  }

  lemma PartIs(x: Json, q: seq<Step>)
    ensures IsTextAt(PART, x, q) <==> TextTyped(x) && q == [Key("text")] && StringAt(x, q)
  {
    AtOne(x, Key("text"));
    assert Holds(TypeIn(TEXT_PART_TYPES), x) <==> TextTyped(x);
    if q != [] { assert q == [q[0]] + q[1..]; }
  }

  lemma ArgumentsIs(x: Json, q: seq<Step>)
    ensures IsTextAt(ARGUMENTS, x, q) <==> q == [Key("arguments")] && StringAt(x, q)
  {
    AtOne(x, Key("arguments"));
    if q != [] { assert q == [q[0]] + q[1..]; }
  }

  lemma ContentIs(x: Json, q: seq<Step>)
    ensures IsTextAt(CONTENT, x, q) <==>
              StringAt(x, q) && (q == [] || (|q| == 2 && q[0].Index? && q[1] == Key("text") && PartAt(x, q[..1])))
  {
    if q != [] {
      assert q == [q[0]] + q[1..] && q[..1] == [q[0]];
      AtOne(x, q[0]);
      AtMore(x, q[0], q[1..]);
      if q[0].Index? && x.Arr? && q[0].i < |x.items| { PartIs(x.items[q[0].i], q[1..]); }
    }
  }

  lemma ToolCallsIs(x: Json, q: seq<Step>)
    ensures IsTextAt(Each(TOOL_CALL), x, q) <==>
              StringAt(x, q) && |q| == 3 && q[0].Index? && q[1] == Key("function") && q[2] == Key("arguments")
  {
    if q != [] {
      assert q == [q[0]] + q[1..];
      AtOne(x, q[0]);
      AtMore(x, q[0], q[1..]);
      if q[0].Index? && x.Arr? && q[0].i < |x.items| { ToolCallIs(x.items[q[0].i], q[1..]); }
    }
  }

  lemma ToolCallIs(x: Json, q: seq<Step>)
    ensures IsTextAt(TOOL_CALL, x, q) <==> StringAt(x, q) && |q| == 2 && q[0] == Key("function") && q[1] == Key("arguments")
  {
    if q != [] {
      assert q == [q[0]] + q[1..];
      AtOne(x, q[0]);
      AtMore(x, q[0], q[1..]);
      if x.Obj? && "function" in x.fields { ArgumentsIs(x.fields["function"], q[1..]); }
    }
  }

  lemma MessageIs(x: Json, q: seq<Step>)
    ensures IsTextAt(MESSAGE, x, q) <==> MessageText(x, q)
  {
    if q != [] {
      assert q == [q[0]] + q[1..];
      AtOne(x, q[0]);
      AtMore(x, q[0], q[1..]);
      if x.Obj? && q[0].Key? && q[0].k in x.fields { MessageFieldIs(x, q); }
    }
  }

  /** Below one field of a message. */
  lemma MessageFieldIs(x: Json, q: seq<Step>)
    requires x.Obj? && q != [] && q[0].Key? && q[0].k in x.fields
    ensures IsTextAt(MESSAGE, x, q) <==> MessageText(x, q)
  {
    var v, r := x.fields[q[0].k], q[1..];
    assert q == [q[0]] + r;
    AtOne(x, q[0]);
    AtMore(x, q[0], r);
    ContentIs(v, r);
    ToolCallsIs(v, r);
    ArgumentsIs(v, r);
    if r != [] {
      assert q[..2] == [q[0]] + r[..1];
      AtMore(x, q[0], r[..1]);
    }
  }

  lemma ItemIs(x: Json, q: seq<Step>)
    ensures IsTextAt(INPUT_ITEM, x, q) <==> ItemText(x, q)
  {
    MessageIs(x, q);
    AtOne(x, Key("text"));
    if x.Obj? {
      assert Holds(HasAny({"content", "tool_calls"}), x) <==> "content" in x.fields || "tool_calls" in x.fields;
    }
    if q != [] { assert q == [q[0]] + q[1..]; }
  }

  lemma ElementIs(x: Json, key: string, p: seq<Step>)
    requires x.Obj? && |p| >= 2 && p[0] == Key(key) && p[1].Index?
    ensures At(x, p[..2]).Some? <==> key in x.fields && x.fields[key].Arr? && p[1].i < |x.fields[key].items|
    ensures At(x, p[..2]).Some? ==> At(x, p[..2]).value == x.fields[key].items[p[1].i]
  {
    assert p[..2] == [p[0]] + [p[1]];
    AtOne(x, p[0]);
    AtMore(x, p[0], [p[1]]);
    if key in x.fields { AtOne(x.fields[key], p[1]); }
  }

  /** What the walk visits is what is redactable. */
  lemma PayloadIs(payload: map<string, Json>, p: seq<Step>)
    ensures IsTextAt(PAYLOAD, Obj(payload), p) <==> Redactable(Obj(payload), p)
  {
    var x := Obj(payload);
    if p != [] {
      AtOne(x, p[0]);
      assert p == [p[0]] + p[1..];
      if |p| >= 2 && p[1].Index? && (p[0] == Key("messages") || p[0] == Key("input")) {
        ElementIs(x, p[0].k, p);
        assert p[1..][1..] == p[2..];
        if At(x, p[..2]).Some? {
          MessageIs(At(x, p[..2]).value, p[2..]);
          ItemIs(At(x, p[..2]).value, p[2..]);
        }
      }
    }
  }

  /** All redactable positions, each once. */
  ghost predicate AllRedactable(x: Json, ps: seq<seq<Step>>) {
    Distinct(ps) && forall p :: p in ps <==> Redactable(x, p)
  }

  /** Reading takes the strings at exactly the redactable positions, and rewriting puts the new ones there and
      changes nothing else. */
  lemma Coverage(payload: map<string, Json>, ts: seq<string>) returns (ps: seq<seq<Step>>)
    requires |ts| == |RequestTexts(payload)|
    ensures AllRedactable(Obj(payload), ps) && StringsAt(Obj(payload), ps, RequestTexts(payload))
    ensures StringsAt(WithTexts(payload, ts), ps, ts)
    ensures forall p | !Redactable(Obj(payload), p) :: ShapeAt(WithTexts(payload, ts), p) == ShapeAt(Obj(payload), p)
  {
    PayloadWellFormed();
    var x := Obj(payload);
    ps := Positions(PAYLOAD, x);
    PositionsDistinct(PAYLOAD, x);
    TextsAtPositions(PAYLOAD, x);
    PositionsStay(PAYLOAD, x, ts);
    PutGet(PAYLOAD, x, ts);
    TextsAtPositions(PAYLOAD, WithTexts(payload, ts));
    forall p ensures p in ps <==> Redactable(x, p) {
      PositionsVisited(PAYLOAD, x, p);
      PayloadIs(payload, p);
    }
    forall p | !Redactable(x, p) ensures ShapeAt(WithTexts(payload, ts), p) == ShapeAt(x, p) {
      PayloadIs(payload, p);
      Untouched(PAYLOAD, x, ts, p);
    }
  }

  /** A true or a number other than zero is the only kind of value that `value or []` cannot loop over. */
  predicate Unloopable(v: Json) { v == Bool(true) || (v.Num? && v.n != 0.0) }

  predicate CallsUnloopable(m: Json) { m.Obj? && "tool_calls" in m.fields && Unloopable(m.fields["tool_calls"]) }

  /** Exactly when the walk raises a TypeError. */
  lemma WalkFailsIff(payload: map<string, Json>)
    ensures !Walkable(payload) <==>
              || ("messages" in payload && Unloopable(payload["messages"]))
              || (exists key, i :: (key == "messages" || key == "input") && key in payload && payload[key].Arr?
                                   && 0 <= i < |payload[key].items| && CallsUnloopable(payload[key].items[i]))
  {
    forall v ensures Unloopable(v) <==> !Iterable(v) {}
    forall m ensures CallsUnloopable(m) <==> !MessageOk(m) {}
    if !Walkable(payload) && !("messages" in payload && Unloopable(payload["messages"])) {
      var key := if "messages" in payload && payload["messages"].Arr?
                    && exists m :: m in payload["messages"].items && !MessageOk(m) then "messages" else "input";
      var m :| m in payload[key].items && !MessageOk(m);
      var i :| 0 <= i < |payload[key].items| && payload[key].items[i] == m;
      assert CallsUnloopable(payload[key].items[i]);
    }
  }

  // ---- the walkers of the source -----------------------------------------------------

  datatype Error = TypeError | ValueError(got: nat, expected: nat)

  datatype Result<+T> = Ok(value: T) | Err(error: Error)

  /** A loop over `items` that has rewritten the first `i` of them. */
  ghost predicate Looping(w: Walker, items: seq<Json>, fn: Fn, s0: seq<string>,
                          i: nat, s: seq<string>, done: seq<Json>)
  {
    && i <= |items| == |done| && done[i..] == items[i..]
    && RunEach(w, items, fn, s0)
       == (RunEach(w, items[i..], fn, s).0, done[..i] + RunEach(w, items[i..], fn, s).1)
  }

  lemma LoopStart(w: Walker, items: seq<Json>, fn: Fn, s: seq<string>)
    ensures Looping(w, items, fn, s, 0, s, items)
  {
    assert items[0..] == items && items[..0] == [];
    assert [] + RunEach(w, items, fn, s).1 == RunEach(w, items, fn, s).1;
  }

  lemma LoopStep(w: Walker, items: seq<Json>, fn: Fn, s0: seq<string>, i: nat, s: seq<string>, done: seq<Json>)
    requires Looping(w, items, fn, s0, i, s, done) && i < |items|
    ensures done[i] == items[i]
    ensures var (s', x) := Run(w, items[i], fn, s); Looping(w, items, fn, s0, i + 1, s', done[i := x])
  {
    var (s', x) := Run(w, items[i], fn, s);
    assert done[i] == done[i..][0] == items[i..][0];
    assert items[i..][0] == items[i] && items[i..][1..] == items[i + 1..];
    var tail := RunEach(w, items[i + 1..], fn, s').1;
    assert done[i := x][i + 1..] == items[i + 1..] by {
      assert forall k | i + 1 <= k < |items| :: done[k] == done[i..][k - i] && items[k] == items[i..][k - i];
    }
    assert done[..i] + ([x] + tail) == done[i := x][..i + 1] + tail;
  }

  lemma LoopEnd(w: Walker, items: seq<Json>, fn: Fn, s0: seq<string>, s: seq<string>, done: seq<Json>)
    requires Looping(w, items, fn, s0, |items|, s, done)
    ensures RunEach(w, items, fn, s0) == (s, done)
  {
    assert items[|items|..] == [] && done[..|items|] + [] == done;
  }

  lemma RunPart(part: Json, fn: Fn, s: seq<string>)
    ensures Run(PART, part, fn, s)
         == if Holds(TypeIn(TEXT_PART_TYPES), part) && "text" in part.fields && part.fields["text"].Str?
            then var (s', t) := fn(s, part.fields["text"].s); (s', Obj(part.fields["text" := Str(t)]))
            else (s, part)
  {
    if part.Obj? && "text" in part.fields { assert part.fields["text" := part.fields["text"]] == part.fields; }
  }

  /** `fn` on the text of a content: a string, or the text parts of a list. */
  method WalkContent(content: Json, fn: Fn, s0: seq<string>) returns (s: seq<string>, r: Json)
    ensures (s, r) == Run(CONTENT, content, fn, s0)
  {
    if content.Str? {
      var (s', t) := fn(s0, content.s);
      return s', Str(t);
    }
    s, r := s0, content;
    if content.Arr? {
      var parts, i := content.items, 0;
      LoopStart(PART, content.items, fn, s0);
      while i < |parts|
        invariant Looping(PART, content.items, fn, s0, i, s, parts)
      {
        LoopStep(PART, content.items, fn, s0, i, s, parts);
        RunPart(parts[i], fn, s);
        var part := parts[i];
        if part.Obj? && "type" in part.fields && part.fields["type"].Str? && part.fields["type"].s in TEXT_PART_TYPES
           && "text" in part.fields && part.fields["text"].Str?
        {
          var (s', t) := fn(s, part.fields["text"].s);
          s, parts := s', parts[i := Obj(part.fields["text" := Str(t)])];
        } else {
          assert parts[i := part] == parts;
        }
        i := i + 1;
      }
      LoopEnd(PART, content.items, fn, s0, s, parts);
      r := Arr(parts);
    }
  }

  /** `func["arguments"]` of an object that has one. */
  method WalkArguments(func: Json, fn: Fn, s0: seq<string>) returns (s: seq<string>, r: Json)
    ensures (s, r) == Run(ARGUMENTS, func, fn, s0)
  {
    s, r := s0, func;
    if func.Obj? && "arguments" in func.fields && func.fields["arguments"].Str? {
      var (s', t) := fn(s, func.fields["arguments"].s);
      s, r := s', Obj(func.fields["arguments" := Str(t)]);
    } else if func.Obj? && "arguments" in func.fields {
      assert func.fields["arguments" := func.fields["arguments"]] == func.fields;
    }
  }

  method WalkToolCalls(calls: Json, fn: Fn, s0: seq<string>) returns (s: seq<string>, r: Json)
    ensures (s, r) == Run(Each(TOOL_CALL), calls, fn, s0)
  {
    s, r := s0, calls;
    if calls.Arr? {
      var items, i := calls.items, 0;
      LoopStart(TOOL_CALL, calls.items, fn, s0);
      while i < |items|
        invariant Looping(TOOL_CALL, calls.items, fn, s0, i, s, items)
      {
        LoopStep(TOOL_CALL, calls.items, fn, s0, i, s, items);
        var tc := items[i];
        if tc.Obj? && "function" in tc.fields {
          var func;
          s, func := WalkArguments(tc.fields["function"], fn, s);
          items := items[i := Obj(tc.fields["function" := func])];
        } else {
          assert items[i := tc] == items;
        }
        i := i + 1;
      }
      LoopEnd(TOOL_CALL, calls.items, fn, s0, s, items);
      r := Arr(items);
    }
  }

  method WalkMessage(msg: Json, fn: Fn, s0: seq<string>) returns (r: Result<(seq<string>, Json)>)
    ensures r == if MessageOk(msg) then Ok(Run(MESSAGE, msg, fn, s0)) else Err(TypeError)
  {
    if !msg.Obj? { return Ok((s0, msg)); }
    var s, f := s0, msg.fields;
    if "content" in f {
      var content;
      s, content := WalkContent(f["content"], fn, s);
      f := f["content" := content];
    }
    if "tool_calls" in f {
      if !Iterable(f["tool_calls"]) { return Err(TypeError); }
      var calls;
      s, calls := WalkToolCalls(f["tool_calls"], fn, s);
      f := f["tool_calls" := calls];
    }
    if "function_call" in f {
      var call;
      s, call := WalkArguments(f["function_call"], fn, s);
      f := f["function_call" := call];
    }
    r := Ok((s, Obj(f)));
  }

  method WalkMessages(messages: Json, fn: Fn, s0: seq<string>) returns (r: Result<(seq<string>, Json)>)
    ensures var ok := Iterable(messages) && (messages.Arr? ==> forall m | m in messages.items :: MessageOk(m));
            r == if ok then Ok(Run(Each(MESSAGE), messages, fn, s0)) else Err(TypeError)
  {
    if !Iterable(messages) { return Err(TypeError); }
    if !messages.Arr? { return Ok((s0, messages)); }
    var s, items, i := s0, messages.items, 0;
    LoopStart(MESSAGE, messages.items, fn, s0);
    while i < |items|
      invariant Looping(MESSAGE, messages.items, fn, s0, i, s, items)
      invariant forall k | 0 <= k < i :: MessageOk(messages.items[k])
    {
      LoopStep(MESSAGE, messages.items, fn, s0, i, s, items);
      var one := WalkMessage(items[i], fn, s);
      if one.Err? { return Err(TypeError); }
      s, items := one.value.0, items[i := one.value.1];
      i := i + 1;
    }
    LoopEnd(MESSAGE, messages.items, fn, s0, s, items);
    r := Ok((s, Arr(items)));
  }

  method WalkInputItem(item: Json, fn: Fn, s0: seq<string>) returns (r: Result<(seq<string>, Json)>)
    ensures r == if MessageOk(item) then Ok(Run(INPUT_ITEM, item, fn, s0)) else Err(TypeError)
  {
    if !item.Obj? { return Ok((s0, item)); }
    if "content" in item.fields || "tool_calls" in item.fields {
      assert Holds(HasAny({"content", "tool_calls"}), item);
      r := WalkMessage(item, fn, s0);
    } else if "text" in item.fields && item.fields["text"].Str? {
      var (s', t) := fn(s0, item.fields["text"].s);
      r := Ok((s', Obj(item.fields["text" := Str(t)])));
    } else {
      if "text" in item.fields { assert item.fields["text" := item.fields["text"]] == item.fields; }
      r := Ok((s0, item));
    }
  }

  method WalkInput(input: Json, fn: Fn, s0: seq<string>) returns (r: Result<(seq<string>, Json)>)
    ensures r == if input.Arr? ==> forall m | m in input.items :: MessageOk(m)
                 then Ok(Run(OnKind(Text, Each(INPUT_ITEM)), input, fn, s0)) else Err(TypeError)
  {
    if input.Str? {
      var (s', t) := fn(s0, input.s);
      return Ok((s', Str(t)));
    }
    if !input.Arr? { return Ok((s0, input)); }
    var s, items, i := s0, input.items, 0;
    LoopStart(INPUT_ITEM, input.items, fn, s0);
    while i < |items|
      invariant Looping(INPUT_ITEM, input.items, fn, s0, i, s, items)
      invariant forall k | 0 <= k < i :: MessageOk(input.items[k])
    {
      LoopStep(INPUT_ITEM, input.items, fn, s0, i, s, items);
      var one := WalkInputItem(items[i], fn, s);
      if one.Err? { return Err(TypeError); }
      s, items := one.value.0, items[i := one.value.1];
      i := i + 1;
    }
    LoopEnd(INPUT_ITEM, input.items, fn, s0, s, items);
    r := Ok((s, Arr(items)));
  }

  /** The one walk that both reading and rewriting go through. */
  method MapTexts(payload: map<string, Json>, fn: Fn, s0: seq<string>) returns (r: Result<(seq<string>, Json)>)
    ensures r == if Walkable(payload) then Ok(Run(PAYLOAD, Obj(payload), fn, s0)) else Err(TypeError)
  {
    var s, out := s0, payload;
    if "messages" in out {
      var messages := WalkMessages(out["messages"], fn, s);
      if messages.Err? { return Err(TypeError); }
      s, out := messages.value.0, out["messages" := messages.value.1];
    }
    if "input" in out {
      var input := WalkInput(out["input"], fn, s);
      if input.Err? { return Err(TypeError); }
      s, out := input.value.0, out["input" := input.value.1];
    }
    r := Ok((s, Obj(out)));
  }

  method ExtractTexts(payload: map<string, Json>) returns (r: Result<seq<string>>)
    ensures r == if Walkable(payload) then Ok(RequestTexts(payload)) else Err(TypeError)
    ensures r.Ok? ==> exists ps :: AllRedactable(Obj(payload), ps) && StringsAt(Obj(payload), ps, r.value)
  {
    ghost var ps := Coverage(payload, RequestTexts(payload));
    var walked := MapTexts(payload, Collect, []);
    PayloadWellFormed();
    RunCollects(PAYLOAD, Obj(payload), []);
    assert [] + RequestTexts(payload) == RequestTexts(payload);
    if walked.Err? { return Err(TypeError); }
    r := Ok(walked.value.0);
  }

  method InjectTexts(payload: map<string, Json>, newTexts: seq<string>) returns (r: Result<Json>)
    ensures r == if !Walkable(payload) then Err(TypeError)
                 else if |newTexts| != |RequestTexts(payload)|
                 then Err(ValueError(|newTexts|, |RequestTexts(payload)|))
                 else Ok(WithTexts(payload, newTexts))
    ensures r.Ok? ==>
              && (exists ps :: AllRedactable(Obj(payload), ps) && StringsAt(r.value, ps, newTexts))
              && forall p | !Redactable(Obj(payload), p) :: ShapeAt(r.value, p) == ShapeAt(Obj(payload), p)
  {
    if |newTexts| == |RequestTexts(payload)| { ghost var ps := Coverage(payload, newTexts); }
    var texts := ExtractTexts(payload);
    if texts.Err? { return Err(texts.error); }
    if |newTexts| != |texts.value| { return Err(ValueError(|newTexts|, |texts.value|)); }
    var walked := MapTexts(payload, Supply, newTexts);
    PayloadWellFormed();
    RunSupplies(PAYLOAD, Obj(payload), newTexts, []);
    assert newTexts + [] == newTexts;
    if walked.Err? { return Err(TypeError); }
    r := Ok(walked.value.1);
  }
}
