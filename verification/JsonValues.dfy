/** The tokens of an encoded value determine the value, so what PHP decodes is what was stored. */
module JsonValues {
  import opened Text
  import opened JsonText

  lemma FirstToken(v: Json)
    ensures Tokens(v) != []
    ensures Tokens(v)[0] != Mark(',') && Tokens(v)[0] != Mark(']') && Tokens(v)[0] != Mark('}')
  {
  }

  lemma {:induction false} UnitsDetermine(s: string, t: string)
    requires Units(s) == Units(t)
    ensures s == t
    decreases |s|
  {
    if s != "" && t != "" {
      assert Units(s)[0] == Units(t)[0] && Units(s)[1..] == Units(s[1..]) && Units(t)[1..] == Units(t[1..]);
      UnitsDetermine(s[1..], t[1..]);
      assert s == [s[0]] + s[1..] && t == [t[0]] + t[1..];
    }
  }

  lemma SameFirst<T>(x: T, a: seq<T>, y: T, b: seq<T>)
    requires [x] + a == [y] + b
    ensures x == y && a == b
  {
    assert ([x] + a)[0] == ([y] + b)[0] && ([x] + a)[1..] == ([y] + b)[1..];
  }

  /** What stands behind the first item, its comma included. */
  function ItemTail(items: seq<Json>): seq<Token>
    requires items != []
  {
    if |items| > 1 then [Mark(',')] + ItemTokens(items[1..]) else []
  }

  lemma ItemsStart(items: seq<Json>, rest: seq<Token>)
    requires items != []
    ensures ItemTokens(items) + rest == Tokens(items[0]) + (ItemTail(items) + rest)
  {
    hide Tokens;
  }

  function FieldTail(fields: seq<Field>): seq<Token>
    requires fields != []
  {
    if |fields| > 1 then [Mark(',')] + FieldTokens(fields[1..]) else []
  }

  lemma FieldsAre(fields: seq<Field>)
    requires fields != []
    ensures FieldTokens(fields) == KeyTokens(fields[0].key) + (Tokens(fields[0].value) + FieldTail(fields))
  {
    hide Tokens, KeyTokens, FieldTokens, Marshal, MarshalFields, EncodeString;
    if |fields| > 1 {
      ManyFieldTokens(fields);
      Associates(Tokens(fields[0].value), [Mark(',')], FieldTokens(fields[1..]));
    } else {
      OneField(fields, "");
      EmptyTail(Tokens(fields[0].value));
    }
  }

  lemma Associates<T>(a: seq<T>, b: seq<T>, c: seq<T>)
    ensures a + b + c == a + (b + c)
  {
  }

  lemma EmptyTail<T>(a: seq<T>)
    ensures a + [] == a
  {
  }

  lemma Regroups<T>(a: T, b: T, v: seq<T>, t: seq<T>, rest: seq<T>)
    ensures [a, b] + (v + t) + rest == [a] + ([b] + (v + (t + rest)))
  {
    assert [a, b] + (v + t) + rest == [a, b] + (v + (t + rest));
  }

  lemma FieldsStart(fields: seq<Field>, rest: seq<Token>)
    requires fields != []
    ensures FieldTokens(fields) + rest
         == [Quoted(Units(fields[0].key))] + ([Mark(':')] + (Tokens(fields[0].value) + (FieldTail(fields) + rest)))
  {
    hide Tokens, Units, FieldTail, FieldTokens;
    FieldsAre(fields);
    Regroups(Quoted(Units(fields[0].key)), Mark(':'), Tokens(fields[0].value), FieldTail(fields), rest);
  }

  /** No value is the beginning of another: the tokens of a value end where it ends. */
  lemma {:induction false} TokensDetermine(v: Json, w: Json, a: seq<Token>, b: seq<Token>)
    requires Tokens(v) + a == Tokens(w) + b
    ensures v == w && a == b
    decreases v, 1
  {
    assert (Tokens(v) + a)[0] == Tokens(v)[0] && (Tokens(w) + b)[0] == Tokens(w)[0];
    match v
    case Word(_) => SameFirst(Tokens(v)[0], a, Tokens(w)[0], b);
    case Str(s) =>
      SameFirst(Tokens(v)[0], a, Tokens(w)[0], b);
      UnitsDetermine(s, w.units);
    case Arr(items) =>
      Bracketed(Mark('['), ItemTokens(items), Mark(']'), a);
      Bracketed(Mark('['), ItemTokens(w.items), Mark(']'), b);
      SameFirst(Mark('['), ItemTokens(items) + ([Mark(']')] + a), Mark('['), ItemTokens(w.items) + ([Mark(']')] + b));
      ItemsDetermine(items, w.items, a, b);
    case Obj(fields) =>
      Bracketed(Mark('{'), FieldTokens(fields), Mark('}'), a);
      Bracketed(Mark('{'), FieldTokens(w.fields), Mark('}'), b);
      SameFirst(Mark('{'), FieldTokens(fields) + ([Mark('}')] + a), Mark('{'), FieldTokens(w.fields) + ([Mark('}')] + b));
      FieldsDetermine(fields, w.fields, a, b);
  }

  lemma Bracketed(open: Token, inner: seq<Token>, close: Token, rest: seq<Token>)
    ensures [open] + inner + [close] + rest == [open] + (inner + ([close] + rest))
  {
  }

  lemma {:induction false} ItemsDetermine(items: seq<Json>, others: seq<Json>, a: seq<Token>, b: seq<Token>)
    requires ItemTokens(items) + ([Mark(']')] + a) == ItemTokens(others) + ([Mark(']')] + b)
    ensures items == others && a == b
    decreases items, 0
  {
    var x, y := [Mark(']')] + a, [Mark(']')] + b;
    if items == [] || others == [] {
      EmptyItems(items, others, a, b);
    } else {
      ItemsStart(items, x);
      ItemsStart(others, y);
      TokensDetermine(items[0], others[0], ItemTail(items) + x, ItemTail(others) + y);
      hide Tokens, ItemTokens;
      TailsAgree(ItemTokens(items[1..]), |items| > 1, ItemTokens(others[1..]), |others| > 1, x, y);
      if |items| > 1 {
        ItemsDetermine(items[1..], others[1..], a, b);
      } else {
        SameFirst(Mark(']'), a, Mark(']'), b);
      }
      assert items == [items[0]] + items[1..] && others == [others[0]] + others[1..];
    }
  }

  /** Either both go on behind a comma, or neither does. */
  lemma TailsAgree(s: seq<Token>, more: bool, t: seq<Token>, others: bool, x: seq<Token>, y: seq<Token>)
    requires (if more then [Mark(',')] + s else []) + x == (if others then [Mark(',')] + t else []) + y
    requires x != [] && y != [] && x[0] != Mark(',') && y[0] != Mark(',')
    ensures more == others && if more then s + x == t + y else x == y
  {
    var p, q := (if more then [Mark(',')] + s else []) + x, (if others then [Mark(',')] + t else []) + y;
    assert p[0] == q[0];
    if more {
      assert p[1..] == s + x && q[1..] == t + y;
    } else {
      assert p == x && q == y;
    }
  }

  lemma ItemsHead(items: seq<Json>, a: seq<Token>)
    ensures (ItemTokens(items) + ([Mark(']')] + a))[0] == Mark(']') <==> items == []
  {
    if items != [] {
      ItemsStart(items, [Mark(']')] + a);
      FirstToken(items[0]);
      hide Tokens;
      assert (Tokens(items[0]) + (ItemTail(items) + ([Mark(']')] + a)))[0] == Tokens(items[0])[0];
    }
  }

  lemma EmptyItems(items: seq<Json>, others: seq<Json>, a: seq<Token>, b: seq<Token>)
    requires ItemTokens(items) + ([Mark(']')] + a) == ItemTokens(others) + ([Mark(']')] + b)
    requires items == [] || others == []
    ensures items == others && a == b
  {
    ItemsHead(items, a);
    ItemsHead(others, b);
    assert items == [] && others == [];
    assert [] + ([Mark(']')] + a) == [Mark(']')] + a && [] + ([Mark(']')] + b) == [Mark(']')] + b;
    SameFirst(Mark(']'), a, Mark(']'), b);
  }

  lemma {:induction false} FieldsDetermine(fields: seq<Field>, others: seq<Field>, a: seq<Token>, b: seq<Token>)
    requires FieldTokens(fields) + ([Mark('}')] + a) == FieldTokens(others) + ([Mark('}')] + b)
    ensures fields == others && a == b
    decreases fields, 0
  {
    var x, y := [Mark('}')] + a, [Mark('}')] + b;
    if fields == [] || others == [] {
      EmptyFields(fields, others, a, b);
    } else {
      var f, g := fields[0], others[0];
      SameKeys(fields, others, x, y);
      TokensDetermine(f.value, g.value, FieldTail(fields) + x, FieldTail(others) + y);
      hide *;
      FieldTailsAgree(fields, others, a, b);
      if |fields| > 1 {
        FieldsDetermine(fields[1..], others[1..], a, b);
      }
      SameSeq(fields, others);
    }
  }

  lemma FieldTailsAgree(fields: seq<Field>, others: seq<Field>, a: seq<Token>, b: seq<Token>)
    requires fields != [] && others != []
    requires FieldTail(fields) + ([Mark('}')] + a) == FieldTail(others) + ([Mark('}')] + b)
    ensures |fields| > 1 <==> |others| > 1
    ensures |fields| > 1 ==>
              FieldTokens(fields[1..]) + ([Mark('}')] + a) == FieldTokens(others[1..]) + ([Mark('}')] + b)
    ensures |fields| == 1 ==> a == b
  {
    hide FieldTokens;
    TailsAgree(FieldTokens(fields[1..]), |fields| > 1, FieldTokens(others[1..]), |others| > 1, [Mark('}')] + a, [Mark('}')] + b);
    if |fields| == 1 { SameFirst(Mark('}'), a, Mark('}'), b); }
  }

  lemma SameSeq<T>(a: seq<T>, b: seq<T>)
    requires a != [] && b != [] && a[0] == b[0]
    requires |a| > 1 <==> |b| > 1
    requires |a| > 1 ==> a[1..] == b[1..]
    ensures a == b
  {
    assert a == [a[0]] + a[1..] && b == [b[0]] + b[1..];
  }

  lemma SameKeys(fields: seq<Field>, others: seq<Field>, x: seq<Token>, y: seq<Token>)
    requires fields != [] && others != [] && FieldTokens(fields) + x == FieldTokens(others) + y
    ensures fields[0].key == others[0].key
    ensures Tokens(fields[0].value) + (FieldTail(fields) + x) == Tokens(others[0].value) + (FieldTail(others) + y)
  {
    FieldsStart(fields, x);
    FieldsStart(others, y);
    hide Tokens, FieldTokens, FieldTail, Units;
    var f, g := fields[0], others[0];
    var s, t := Tokens(f.value) + (FieldTail(fields) + x), Tokens(g.value) + (FieldTail(others) + y);
    SameFirst(Quoted(Units(f.key)), [Mark(':')] + s, Quoted(Units(g.key)), [Mark(':')] + t);
    SameFirst(Mark(':'), s, Mark(':'), t);
    UnitsDetermine(f.key, g.key);
  }

  lemma FieldsHead(fields: seq<Field>, a: seq<Token>)
    ensures (FieldTokens(fields) + ([Mark('}')] + a))[0] == Mark('}') <==> fields == []
  {
    if fields != [] { FieldsStart(fields, [Mark('}')] + a); }
  }

  lemma EmptyFields(fields: seq<Field>, others: seq<Field>, a: seq<Token>, b: seq<Token>)
    requires FieldTokens(fields) + ([Mark('}')] + a) == FieldTokens(others) + ([Mark('}')] + b)
    requires fields == [] || others == []
    ensures fields == others && a == b
  {
    FieldsHead(fields, a);
    FieldsHead(others, b);
    assert fields == [] && others == [];
    assert [] + ([Mark('}')] + a) == [Mark('}')] + a && [] + ([Mark('}')] + b) == [Mark('}')] + b;
    SameFirst(Mark('}'), a, Mark('}'), b);
  }

  /**
   Main result: the tokens that PHP reads from the stored text are those of the provider list and of
   no other value, so decoding them gives exactly that list.
   */
  lemma PhpDecodesProviders(providers: seq<Json>, v: Json)
    requires PlainItems(providers)
    ensures Lex(PhpQuotes(StoredText(providers))) == Some(Tokens(v)) <==> v == Arr(providers)
  {
    PhpReadsProviders(providers);
    hide Lex, Tokens, StoredText, PhpQuotes;
    if Tokens(v) == Tokens(Arr(providers)) {
      TokensDetermine(v, Arr(providers), [], []);
    }
  }
}
