/** The stable fingerprint text of a request body: `stableStringify` in backend/src/middleware/idempotency.ts. */
module StableStringify {
  import opened Sorting
  import Strings

  /** Scalars are null, booleans and numbers, identified with how they print. */
  datatype Json =
    | Scalar(text: string)
    | Str(value: string)
    | Arr(items: seq<Json>)
    | Obj(fields: seq<Field>)

  datatype Field = Field(key: string, value: Json)

  /** Printed scalars and quoted strings are self-delimiting tokens. */
  datatype Token = LBracket | RBracket | LBrace | RBrace | Comma | Colon | Literal(text: string) | Quoted(value: string)

  type Text = seq<Token>

  predicate KeyAtMost(a: Field, b: Field) {
    Strings.AtMost(a.key, b.key)
  }

  /** `texts.join(',')`. */
  function Join(texts: seq<Text>): Text {
    if texts == [] then []
    else if |texts| == 1 then texts[0]
    else texts[0] + [Comma] + Join(texts[1..])
  }

  function Stringify(j: Json): Text
    decreases j, 3
  {
    match j
    case Scalar(text) => [Literal(text)]
    case Str(value) => [Quoted(value)]
    case Arr(items) => [LBracket] + Join(ItemTexts(j, items)) + [RBracket]
    case Obj(fields) =>
      SortKeeps(fields);
      var sorted := Sort(fields, KeyAtMost);
      assert forall i :: 0 <= i < |sorted| ==> sorted[i] in sorted;
      [LBrace] + Join(FieldTexts(j, sorted)) + [RBrace]
  }

  function ItemTexts(ghost parent: Json, items: seq<Json>): (texts: seq<Text>)
    requires forall i :: 0 <= i < |items| ==> items[i] < parent
    ensures |texts| == |items| && forall i :: 0 <= i < |items| ==> texts[i] == Stringify(items[i])
    decreases parent, 2, |items|
  {
    if items == [] then []
    else
      [Stringify(items[0])] + ItemTexts(parent, items[1..])
  }

  function FieldText(ghost parent: Json, field: Field): Text
    requires field.value < parent
    decreases parent, 1
  {
    [Quoted(field.key), Colon] + Stringify(field.value)
  }

  function FieldTexts(ghost parent: Json, fields: seq<Field>): (texts: seq<Text>)
    requires forall i :: 0 <= i < |fields| ==> fields[i].value < parent
    ensures |texts| == |fields|
    ensures forall i :: 0 <= i < |fields| ==> texts[i] == [Quoted(fields[i].key), Colon] + Stringify(fields[i].value)
    decreases parent, 2, |fields|
  {
    if fields == [] then []
    else
      [FieldText(parent, fields[0])] + FieldTexts(parent, fields[1..])
  }

  lemma SortKeeps(fields: seq<Field>)
    ensures forall f :: f in Sort(fields, KeyAtMost) <==> f in fields
  {
    forall f ensures f in Sort(fields, KeyAtMost) <==> f in fields {
      assert f in multiset(Sort(fields, KeyAtMost)) <==> f in multiset(fields);
    }
  }

  // ---------------------------------------------------------------- equality up to key order

  ghost predicate UniqueKeys(fields: seq<Field>) {
    forall i, j :: 0 <= i < j < |fields| ==> fields[i].key != fields[j].key
  }

  /** No object repeats a key, at any depth. */
  ghost predicate WellFormed(j: Json) {
    match j
    case Scalar(_) => true
    case Str(_) => true
    case Arr(items) => forall item :: item in items ==> WellFormed(item)
    case Obj(fields) => UniqueKeys(fields) && forall f :: f in fields ==> WellFormed(f.value)
  }

  ghost function Keys(fields: seq<Field>): set<string> {
    set f | f in fields :: f.key
  }

  /** The same value up to the order of object keys, at every depth. */
  ghost predicate Same(a: Json, b: Json) {
    match a
    case Scalar(_) => a == b
    case Str(_) => a == b
    case Arr(items) => b.Arr? && |items| == |b.items| && forall i :: 0 <= i < |items| ==> Same(items[i], b.items[i])
    case Obj(fields) =>
      && b.Obj? && Keys(fields) == Keys(b.fields)
      && forall f, g :: f in fields && g in b.fields && f.key == g.key ==> Same(f.value, g.value)
  }

  // ---------------------------------------------------------------- texts are self-delimiting

  /** Neither text is a proper prefix of the other. */
  ghost predicate Delimited(t: Text, u: Text) {
    forall p, q :: t + p == u + q ==> t == u
  }

  predicate Starts(t: Text) {
    t != [] && (t[0].Literal? || t[0].Quoted? || t[0].LBracket? || t[0].LBrace?)
  }

  lemma Cancel(t: Text, u: Text, p: Text, q: Text)
    requires t + p == u + q && Delimited(t, u)
    ensures t == u && p == q
  {
    assert p == (t + p)[|t|..] && q == (u + q)[|u|..];
  }

  function AfterFirst(ts: seq<Text>, close: Token, p: Text): Text
    requires ts != []
  {
    if |ts| == 1 then [close] + p else [Comma] + (Join(ts[1..]) + [close] + p)
  }

  lemma JoinFirst(ts: seq<Text>, close: Token, p: Text)
    requires ts != []
    ensures Join(ts) + [close] + p == ts[0] + AfterFirst(ts, close, p)
  {
    if |ts| > 1 {
      assert Join(ts) == ts[0] + [Comma] + Join(ts[1..]);
    }
  }

  ghost predicate AllStart(ts: seq<Text>) {
    forall i :: 0 <= i < |ts| ==> Starts(ts[i])
  }

  ghost predicate AllDelimited(ts: seq<Text>, us: seq<Text>) {
    forall i, j :: 0 <= i < |ts| && 0 <= j < |us| ==> Delimited(ts[i], us[j])
  }

  lemma StartIsNoClose(ts: seq<Text>, close: Token, p: Text, q: Text)
    requires ts != [] && AllStart(ts) && (close == RBracket || close == RBrace)
    ensures Join(ts) + [close] + p != [close] + q
  {
    JoinFirst(ts, close, p);
    assert (ts[0] + AfterFirst(ts, close, p))[0] == ts[0][0] != close == ([close] + q)[0];
  }

  lemma CloseIsNoStart(ts: seq<Text>, close: Token, p: Text, q: Text)
    requires AllStart(ts) && (close == RBracket || close == RBrace)
    requires Join(ts) + [close] + p == [close] + q
    ensures ts == [] && p == q
  {
    if ts == [] {
      Cancel([close], [close], p, q);
    } else {
      StartIsNoClose(ts, close, p, q);
    }
  }

  // Two bracketed lists with equal texts hold the same element texts.
  lemma BracketsSplit(ts: seq<Text>, us: seq<Text>, open: Token, close: Token, p: Text, q: Text)
    requires close == RBracket || close == RBrace
    requires AllStart(ts) && AllStart(us) && AllDelimited(ts, us)
    requires ([open] + Join(ts) + [close]) + p == ([open] + Join(us) + [close]) + q
    ensures ts == us
  {
    assert ([open] + Join(ts) + [close]) + p == [open] + (Join(ts) + [close] + p);
    assert ([open] + Join(us) + [close]) + q == [open] + (Join(us) + [close] + q);
    Cancel([open], [open], Join(ts) + [close] + p, Join(us) + [close] + q);
    JoinSplits(ts, us, close, p, q);
  }

  lemma {:induction false} JoinSplits(ts: seq<Text>, us: seq<Text>, close: Token, p: Text, q: Text)
    requires close == RBracket || close == RBrace
    requires AllStart(ts) && AllStart(us) && AllDelimited(ts, us)
    requires Join(ts) + [close] + p == Join(us) + [close] + q
    ensures ts == us && p == q
    decreases |ts|, 1
  {
    if ts == [] {
      CloseIsNoStart(us, close, q, p);
    } else if us == [] {
      CloseIsNoStart(ts, close, p, q);
    } else {
      JoinFirst(ts, close, p);
      JoinFirst(us, close, q);
      Cancel(ts[0], us[0], AfterFirst(ts, close, p), AfterFirst(us, close, q));
      RestSplits(ts, us, close, p, q);
      assert ts == [ts[0]] + ts[1..] && us == [us[0]] + us[1..];
    }
  }

  lemma {:induction false} RestSplits(ts: seq<Text>, us: seq<Text>, close: Token, p: Text, q: Text)
    requires close == RBracket || close == RBrace
    requires ts != [] && us != []
    requires AllStart(ts) && AllStart(us) && AllDelimited(ts, us)
    requires AfterFirst(ts, close, p) == AfterFirst(us, close, q)
    ensures ts[1..] == us[1..] && p == q
    decreases |ts|, 0
  {
    var left, right := AfterFirst(ts, close, p), AfterFirst(us, close, q);
    assert left[0] == right[0];
    if |ts| == 1 {
      assert p == left[1..] && q == right[1..];
    } else {
      assert Join(ts[1..]) + [close] + p == left[1..] && Join(us[1..]) + [close] + q == right[1..];
      JoinSplits(ts[1..], us[1..], close, p, q);
    }
  }

  lemma {:induction false} SelfDelimiting(a: Json, b: Json)
    ensures Delimited(Stringify(a), Stringify(b))
    decreases a
  {
    forall p, q | Stringify(a) + p == Stringify(b) + q ensures Stringify(a) == Stringify(b) {
      assert (Stringify(a) + p)[0] == (Stringify(b) + q)[0];
      match a
      case Scalar(_) =>
      case Str(_) =>
      case Arr(items) => ItemsDelimited(a, b, p, q);
      case Obj(fields) => FieldsDelimited(a, b, p, q);
    }
  }

  lemma {:induction false} ItemsDelimited(a: Json, b: Json, p: Text, q: Text)
    requires a.Arr? && b.Arr? && Stringify(a) + p == Stringify(b) + q
    ensures ItemTexts(a, a.items) == ItemTexts(b, b.items)
    decreases a, 0
  {
    var ts, us := ItemTexts(a, a.items), ItemTexts(b, b.items);
    forall i, j | 0 <= i < |ts| && 0 <= j < |us| ensures Delimited(ts[i], us[j]) {
      SelfDelimiting(a.items[i], b.items[j]);
    }
    BracketsSplit(ts, us, LBracket, RBracket, p, q);
  }

  lemma PrefixedDelimited(x: Token, t: Text, y: Token, u: Text)
    requires x == y ==> Delimited(t, u)
    ensures Delimited([x] + t, [y] + u)
  {
    forall p, q | ([x] + t) + p == ([y] + u) + q ensures [x] + t == [y] + u {
      assert (([x] + t) + p)[0] == x && (([y] + u) + q)[0] == y;
      assert (([x] + t) + p)[1..] == t + p && (([y] + u) + q)[1..] == u + q;
    }
  }

  lemma FieldDelimited(f: Field, g: Field)
    requires Delimited(Stringify(f.value), Stringify(g.value))
    ensures Delimited([Quoted(f.key), Colon] + Stringify(f.value), [Quoted(g.key), Colon] + Stringify(g.value))
  {
    var t, u := Stringify(f.value), Stringify(g.value);
    PrefixedDelimited(Colon, t, Colon, u);
    PrefixedDelimited(Quoted(f.key), [Colon] + t, Quoted(g.key), [Colon] + u);
    assert [Quoted(f.key)] + ([Colon] + t) == [Quoted(f.key), Colon] + t;
    assert [Quoted(g.key)] + ([Colon] + u) == [Quoted(g.key), Colon] + u;
  }

  ghost function SortedFields(j: Json): (fields: seq<Field>)
    requires j.Obj?
    ensures forall i :: 0 <= i < |fields| ==> fields[i] in j.fields && fields[i].value < j
  {
    SortKeeps(j.fields);
    var fields := Sort(j.fields, KeyAtMost);
    assert forall i :: 0 <= i < |fields| ==> fields[i] in fields;
    fields
  }

  ghost function SortedTexts(j: Json): (texts: seq<Text>)
    requires j.Obj?
    ensures Stringify(j) == [LBrace] + Join(texts) + [RBrace]
    ensures |texts| == |SortedFields(j)| && AllStart(texts)
    ensures forall i :: 0 <= i < |texts| ==>
              texts[i] == [Quoted(SortedFields(j)[i].key), Colon] + Stringify(SortedFields(j)[i].value)
  {
    FieldTexts(j, SortedFields(j))
  }

  lemma {:induction false} FieldsDelimited(a: Json, b: Json, p: Text, q: Text)
    requires a.Obj? && b.Obj? && Stringify(a) + p == Stringify(b) + q
    ensures SortedTexts(a) == SortedTexts(b)
    decreases a, 0
  {
    var fs, gs := SortedFields(a), SortedFields(b);
    forall i, j | 0 <= i < |fs| && 0 <= j < |gs| ensures Delimited(SortedTexts(a)[i], SortedTexts(b)[j]) {
      SelfDelimiting(fs[i].value, gs[j].value);
      FieldDelimited(fs[i], gs[j]);
    }
    BracketsSplit(SortedTexts(a), SortedTexts(b), LBrace, RBrace, p, q);
  }

  // ---------------------------------------------------------------- equal texts mean equal values

  lemma {:induction false} EqualTextsAreSame(a: Json, b: Json)
    requires WellFormed(a) && WellFormed(b) && Stringify(a) == Stringify(b)
    ensures Same(a, b)
    decreases a
  {
    assert Stringify(a)[0] == Stringify(b)[0];
    match a
    case Scalar(_) =>
    case Str(_) =>
    case Arr(items) =>
      ItemsDelimited(a, b, [], []);
      forall i | 0 <= i < |items| ensures Same(items[i], b.items[i]) {
        assert ItemTexts(a, items)[i] == ItemTexts(b, b.items)[i];
        EqualTextsAreSame(items[i], b.items[i]);
      }
    case Obj(_) => EqualObjectsAreSame(a, b);
  }

  lemma UniqueField(fields: seq<Field>, f: Field, g: Field)
    requires UniqueKeys(fields) && f in fields && g in fields && f.key == g.key
    ensures f == g
  {
  }

  /** Two field lists that agree position by position. */
  ghost predicate Matched(fs: seq<Field>, gs: seq<Field>) {
    |fs| == |gs| && forall i :: 0 <= i < |fs| ==> fs[i].key == gs[i].key && Same(fs[i].value, gs[i].value)
  }

  lemma MatchedKeys(a: seq<Field>, b: seq<Field>, fs: seq<Field>, gs: seq<Field>)
    requires (forall f :: f in a <==> f in fs) && (forall g :: g in b <==> g in gs) && Matched(fs, gs)
    ensures Keys(a) == Keys(b)
  {
    forall f | f in a ensures f.key in Keys(b) {
      var i :| 0 <= i < |fs| && fs[i] == f;
      assert gs[i] in b && gs[i].key == f.key;
    }
    forall g | g in b ensures g.key in Keys(a) {
      var i :| 0 <= i < |gs| && gs[i] == g;
      assert fs[i] in a && fs[i].key == g.key;
    }
  }

  lemma MatchedValues(a: seq<Field>, b: seq<Field>, fs: seq<Field>, gs: seq<Field>, f: Field, g: Field)
    requires (forall x :: x in a <==> x in fs) && (forall x :: x in b <==> x in gs) && Matched(fs, gs)
    requires UniqueKeys(b) && f in a && g in b && f.key == g.key
    ensures Same(f.value, g.value)
  {
    var i :| 0 <= i < |fs| && fs[i] == f;
    assert gs[i] in b;
    UniqueField(b, gs[i], g);
  }

  lemma {:induction false} EqualObjectsMatch(a: Json, b: Json)
    requires WellFormed(a) && WellFormed(b) && a.Obj? && b.Obj? && Stringify(a) == Stringify(b)
    ensures Matched(SortedFields(a), SortedFields(b))
    decreases a, 0
  {
    FieldsDelimited(a, b, [], []);
    var fs, gs := SortedFields(a), SortedFields(b);
    forall i | 0 <= i < |fs| ensures fs[i].key == gs[i].key && Same(fs[i].value, gs[i].value) {
      var t := SortedTexts(a)[i];
      assert t == SortedTexts(b)[i];
      assert t[0] == Quoted(fs[i].key) == Quoted(gs[i].key);
      assert t[2..] == Stringify(fs[i].value) == Stringify(gs[i].value);
      EqualTextsAreSame(fs[i].value, gs[i].value);
    }
  }

  lemma {:induction false} EqualObjectsAreSame(a: Json, b: Json)
    requires WellFormed(a) && WellFormed(b) && a.Obj? && b.Obj? && Stringify(a) == Stringify(b)
    ensures Same(a, b)
    decreases a, 1
  {
    EqualObjectsMatch(a, b);
    SortKeeps(a.fields);
    SortKeeps(b.fields);
    var fs, gs := SortedFields(a), SortedFields(b);
    MatchedKeys(a.fields, b.fields, fs, gs);
    forall f, g | f in a.fields && g in b.fields && f.key == g.key ensures Same(f.value, g.value) {
      MatchedValues(a.fields, b.fields, fs, gs, f, g);
    }
  }

  // ---------------------------------------------------------------- and equal values give equal texts

  lemma {:induction false} SameGivesEqualTexts(a: Json, b: Json)
    requires WellFormed(a) && WellFormed(b) && Same(a, b)
    ensures Stringify(a) == Stringify(b)
    decreases a
  {
    match a
    case Scalar(_) =>
    case Str(_) =>
    case Arr(items) =>
      forall i | 0 <= i < |items| ensures ItemTexts(a, items)[i] == ItemTexts(b, b.items)[i] {
        SameGivesEqualTexts(items[i], b.items[i]);
      }
      assert ItemTexts(a, items) == ItemTexts(b, b.items);
    case Obj(fields) =>
      var fs, gs := SortedFields(a), SortedFields(b);
      SortedKeysAgree(fields, b.fields);
      forall i | 0 <= i < |fs| ensures SortedTexts(a)[i] == SortedTexts(b)[i] {
        SameGivesEqualTexts(fs[i].value, gs[i].value);
      }
      assert SortedTexts(a) == SortedTexts(b);
  }

  function KeyOf(f: Field): string {
    f.key
  }

  lemma KeysDetermineMultiset(fields: seq<Field>)
    requires UniqueKeys(fields)
    ensures multiset(Map(KeyOf, fields)) == multiset(Keys(fields))
    decreases |fields|
  {
    if fields == [] {
      assert Keys(fields) == {};
    } else {
      var rest := fields[1..];
      KeysDetermineMultiset(rest);
      assert fields == [fields[0]] + rest;
      assert Keys(fields) == Keys(rest) + {fields[0].key};
      assert fields[0].key !in Keys(rest);
      MapCons(KeyOf, fields[0], rest);
    }
  }

  lemma SortedKeysAgree(a: seq<Field>, b: seq<Field>)
    requires UniqueKeys(a) && UniqueKeys(b) && Keys(a) == Keys(b)
    ensures |a| == |b|
    ensures forall i :: 0 <= i < |a| ==> Sort(a, KeyAtMost)[i].key == Sort(b, KeyAtMost)[i].key
  {
    var ka, kb := Map(KeyOf, Sort(a, KeyAtMost)), Map(KeyOf, Sort(b, KeyAtMost));
    KeysDetermineMultiset(a);
    KeysDetermineMultiset(b);
    MapPermuted(KeyOf, Sort(a, KeyAtMost), a);
    MapPermuted(KeyOf, Sort(b, KeyAtMost), b);
    SortedKeys(a);
    SortedKeys(b);
    Strings.StringsTotallyOrdered();
    SortedUnique(ka, kb, Strings.AtMost);
  }

  lemma SortedKeys(a: seq<Field>)
    ensures SortedBy(Map(KeyOf, Sort(a, KeyAtMost)), Strings.AtMost)
  {
    Strings.StringsTotallyOrdered();
    SortSorts(a, KeyAtMost);
  }

  // Two request bodies have the same fingerprint text exactly when they are equal up to key order.
  lemma StringifyExactlyUpToKeyOrder(a: Json, b: Json)
    requires WellFormed(a) && WellFormed(b)
    ensures Stringify(a) == Stringify(b) <==> Same(a, b)
  {
    if Stringify(a) == Stringify(b) {
      EqualTextsAreSame(a, b);
    }
    if Same(a, b) {
      SameGivesEqualTexts(a, b);
    }
  }
}
