/** Expansion of `$ref`s in an OpenAPI document: every reference to a component schema is
    replaced by that schema, expanded in turn, except a reference to a schema that is
    already being expanded, which becomes a bare object schema. */
module OpenApiRefs {
  import opened Wrappers

  datatype Json =
    | Null
    | Bool(b: bool)
    | Num(text: string)
    | Str(s: string)
    | Arr(items: seq<Json>)
    | Obj(fields: map<string, Json>)

  type Schemas = map<string, Json>

  const REF := "$ref"
  const PREFIX := "#/components/schemas/"

  function StripPrefix(s: string): Option<string> {
    if PREFIX <= s then Some(s[|PREFIX|..]) else None
  }

  /** The existing schema a value names, read as the text of a reference. */
  function Names(v: Json, schemas: Schemas): Option<string> {
    if !v.Str? then None
    else
      match StripPrefix(v.s)
      case None => None
      case Some(name) => if name in schemas then Some(name) else None
  }

  /** The schema an object refers to. */
  function Target(fields: map<string, Json>, schemas: Schemas): (r: Option<string>)
    ensures r.Some? ==> r.value in schemas && REF in fields
  {
    if REF in fields then Names(fields[REF], schemas) else None
  }

  function Siblings(fields: map<string, Json>): map<string, Json> {
    map k | k in fields && k != REF :: fields[k]
  }

  /** Siblings of a reference override what it refers to, if that is an object. */
  function Override(expanded: Json, siblings: map<string, Json>): Json {
    if expanded.Obj? then Obj(expanded.fields + siblings) else expanded
  }

  const CUT := Obj(map["type" := Str("object")])

  /** Terminates for every set of schemas, cyclic or not: following a reference leaves
      fewer schemas to enter, and everything else is part of the value. */
  function Expand(v: Json, schemas: Schemas, active: set<string>): Json
    decreases schemas.Keys - active, v
  {
    match v
    case Arr(items) => Arr(seq(|items|, i requires 0 <= i < |items| => Expand(items[i], schemas, active)))
    case Obj(fields) =>
      (match Target(fields, schemas)
       case None => Obj(map k | k in fields :: Expand(fields[k], schemas, active))
       case Some(name) =>
         if name in active then CUT
         else
           assert name in schemas.Keys - active && name !in schemas.Keys - (active + {name});
           Override(Expand(schemas[name], schemas, active + {name}),
                    map k | k in fields && k != REF :: Expand(fields[k], schemas, active)))
    case _ => v
  }

  // ------------------------------------------------------------ the unbounded meaning

  function AllSome<T>(rs: seq<Option<T>>): Option<seq<T>> {
    if forall i :: 0 <= i < |rs| ==> rs[i].Some?
    then Some(seq(|rs|, i requires 0 <= i < |rs| => rs[i].value))
    else None
  }

  function AllSomeIn<T>(rs: map<string, Option<T>>): Option<map<string, T>> {
    if forall k :: k in rs ==> rs[k].Some?
    then Some(map k | k in rs :: rs[k].value)
    else None
  }

  /** Plain inlining, which knows nothing of chains: every reference is replaced by what
      its schema inlines to. It has no value if that takes more than `depth` references
      inside one another. */
  function Inline(v: Json, schemas: Schemas, depth: nat): Option<Json>
    decreases depth, v
  {
    match v
    case Arr(items) =>
      (match AllSome(seq(|items|, i requires 0 <= i < |items| => Inline(items[i], schemas, depth)))
       case None => None
       case Some(inlined) => Some(Arr(inlined)))
    case Obj(fields) =>
      (match Target(fields, schemas)
       case None =>
         (match AllSomeIn(map k | k in fields :: Inline(fields[k], schemas, depth))
          case None => None
          case Some(inlined) => Some(Obj(inlined)))
       case Some(name) =>
         if depth == 0 then None
         else
           match Inline(schemas[name], schemas, depth - 1)
           case None => None
           case Some(target) =>
             if !target.Obj? then Some(target)
             else
               match AllSomeIn(map k | k in fields && k != REF :: Inline(fields[k], schemas, depth))
               case None => None
               case Some(siblings) => Some(Override(target, siblings)))
    case _ => Some(v)
  }

  /** Whether expansion meets a reference to a schema it is inside of. */
  predicate Cuts(v: Json, schemas: Schemas, active: set<string>)
    decreases schemas.Keys - active, v
  {
    match v
    case Arr(items) => exists i :: 0 <= i < |items| && Cuts(items[i], schemas, active)
    case Obj(fields) =>
      (match Target(fields, schemas)
       case None => exists k :: k in fields && Cuts(fields[k], schemas, active)
       case Some(name) =>
         name in active ||
         (assert name in schemas.Keys - active && name !in schemas.Keys - (active + {name});
          Cuts(schemas[name], schemas, active + {name})
          || (Expand(schemas[name], schemas, active + {name}).Obj?
              && exists k :: k in fields && k != REF && Cuts(fields[k], schemas, active))))
    case _ => false
  }

  // --------------------------------------------------------- expansion is inlining

  /** What inlining an array or an object's fields comes to, part by part. */
  lemma InlineArr(items: seq<Json>, schemas: Schemas, depth: nat)
    ensures var r := Inline(Arr(items), schemas, depth);
      && (r.Some? <==> forall i :: 0 <= i < |items| ==> Inline(items[i], schemas, depth).Some?)
      && (r.Some? ==>
            && r.value.Arr? && |r.value.items| == |items|
            && forall i :: 0 <= i < |items| ==> r.value.items[i] == Inline(items[i], schemas, depth).value)
  {
    var rs := seq(|items|, i requires 0 <= i < |items| => Inline(items[i], schemas, depth));
    assert forall i :: 0 <= i < |items| ==> rs[i] == Inline(items[i], schemas, depth);
  }

  ghost predicate FieldsInline(fields: map<string, Json>, schemas: Schemas, depth: nat) {
    forall k :: k in fields ==> Inline(fields[k], schemas, depth).Some?
  }

  ghost function InlinedFields(fields: map<string, Json>, schemas: Schemas, depth: nat): map<string, Json>
    requires FieldsInline(fields, schemas, depth)
  {
    map k | k in fields :: Inline(fields[k], schemas, depth).value
  }

  lemma InlineObj(fields: map<string, Json>, schemas: Schemas, depth: nat)
    requires Target(fields, schemas).None?
    ensures Inline(Obj(fields), schemas, depth)
         == if FieldsInline(fields, schemas, depth) then Some(Obj(InlinedFields(fields, schemas, depth))) else None
  {
    var rs := map k | k in fields :: Inline(fields[k], schemas, depth);
    assert forall k :: k in fields ==> k in rs && rs[k] == Inline(fields[k], schemas, depth);
    assert AllSomeIn(rs).Some? <==> FieldsInline(fields, schemas, depth);
    if FieldsInline(fields, schemas, depth) {
      assert AllSomeIn(rs).value == InlinedFields(fields, schemas, depth);
    }
  }

  lemma InlineRef(fields: map<string, Json>, schemas: Schemas, depth: nat, name: string)
    requires Target(fields, schemas) == Some(name) && depth > 0
    ensures var target := Inline(schemas[name], schemas, depth - 1);
      Inline(Obj(fields), schemas, depth) ==
        if target.None? || !target.value.Obj? then target
        else if FieldsInline(Siblings(fields), schemas, depth)
        then Some(Override(target.value, InlinedFields(Siblings(fields), schemas, depth)))
        else None
  {
    var siblings := Siblings(fields);
    var rs := map k | k in fields && k != REF :: Inline(fields[k], schemas, depth);
    assert rs.Keys == siblings.Keys;
    assert forall k :: k in rs ==> rs[k] == Inline(siblings[k], schemas, depth);
    assert AllSomeIn(rs).Some? <==> FieldsInline(siblings, schemas, depth);
    if FieldsInline(siblings, schemas, depth) {
      assert AllSomeIn(rs).value == InlinedFields(siblings, schemas, depth);
    }
  }

  /** More depth never changes a value that inlining already has. */
  lemma {:induction false} InlineIsStable(v: Json, schemas: Schemas, n: nat, m: nat)
    requires n <= m && Inline(v, schemas, n).Some?
    ensures Inline(v, schemas, m) == Inline(v, schemas, n)
    decreases n, v
  {
    match v {
      case Arr(items) =>
        InlineArr(items, schemas, n);
        InlineArr(items, schemas, m);
        forall i | 0 <= i < |items|
          ensures Inline(items[i], schemas, m) == Inline(items[i], schemas, n)
        {
          InlineIsStable(items[i], schemas, n, m);
        }
        assert Inline(v, schemas, m).value.items == Inline(v, schemas, n).value.items;
      case Obj(fields) =>
        match Target(fields, schemas) {
          case None =>
            InlineObj(fields, schemas, n);
            InlineObj(fields, schemas, m);
            forall k | k in fields ensures Inline(fields[k], schemas, m) == Inline(fields[k], schemas, n) {
              InlineIsStable(fields[k], schemas, n, m);
            }
            assert InlinedFields(fields, schemas, m) == InlinedFields(fields, schemas, n);
          case Some(name) =>
            InlineRef(fields, schemas, n, name);
            InlineIsStable(schemas[name], schemas, n - 1, m - 1);
            if Inline(schemas[name], schemas, n - 1).value.Obj? {
              forall k | k in Siblings(fields)
                ensures Inline(Siblings(fields)[k], schemas, m) == Inline(Siblings(fields)[k], schemas, n)
              {
                InlineIsStable(fields[k], schemas, n, m);
              }
            }
            StableRef(fields, schemas, n, m, name);
        }
      case _ =>
    }
  }

  lemma StableRef(fields: map<string, Json>, schemas: Schemas, n: nat, m: nat, name: string)
    requires Target(fields, schemas) == Some(name) && 0 < n <= m
    requires Inline(schemas[name], schemas, m - 1) == Inline(schemas[name], schemas, n - 1)
    requires Inline(schemas[name], schemas, n - 1).Some?
    requires Inline(schemas[name], schemas, n - 1).value.Obj? ==>
      && FieldsInline(Siblings(fields), schemas, n)
      && forall k :: k in Siblings(fields) ==>
           Inline(Siblings(fields)[k], schemas, m) == Inline(Siblings(fields)[k], schemas, n)
    ensures Inline(Obj(fields), schemas, m) == Inline(Obj(fields), schemas, n)
  {
    InlineRef(fields, schemas, n, name);
    InlineRef(fields, schemas, m, name);
    if Inline(schemas[name], schemas, n - 1).value.Obj? {
      assert InlinedFields(Siblings(fields), schemas, m) == InlinedFields(Siblings(fields), schemas, n);
    }
  }

  ghost function ExpandedFields(fields: map<string, Json>, schemas: Schemas, active: set<string>): map<string, Json> {
    map k | k in fields :: Expand(fields[k], schemas, active)
  }

  lemma ExpandRef(fields: map<string, Json>, schemas: Schemas, active: set<string>, name: string)
    requires Target(fields, schemas) == Some(name) && name !in active
    ensures Expand(Obj(fields), schemas, active)
         == Override(Expand(schemas[name], schemas, active + {name}), ExpandedFields(Siblings(fields), schemas, active))
  {
    assert ExpandedFields(Siblings(fields), schemas, active)
        == map k | k in fields && k != REF :: Expand(fields[k], schemas, active);
  }

  // ------------------------------------------------------- expansion, on the text of a document

  lemma PrefixIsStripped(name: string)
    ensures StripPrefix("#/components/schemas/" + name) == Some(name)
  {
    assert ("#/components/schemas/" + name)[|PREFIX|..] == name;
  }

  /** The reference to a component schema is what that schema expands to, within itself a bare
      object; nothing else in the object counts if that is no object. */
  lemma ReferenceExpands(fields: map<string, Json>, name: string, schemas: Schemas, active: set<string>)
    requires "$ref" in fields && fields["$ref"] == Str("#/components/schemas/" + name) && name in schemas
    ensures name in active ==> Expand(Obj(fields), schemas, active) == Obj(map["type" := Str("object")])
    ensures name !in active && (fields.Keys == {"$ref"} || !Expand(schemas[name], schemas, active + {name}).Obj?) ==>
      Expand(Obj(fields), schemas, active) == Expand(schemas[name], schemas, active + {name})
  {
    PrefixIsStripped(name);
    assert Target(fields, schemas) == Some(name);
    if name !in active {
      ExpandRef(fields, schemas, active, name);
      if fields.Keys == {"$ref"} {
        assert ExpandedFields(Siblings(fields), schemas, active) == map[];
      }
    }
  }

  /** Otherwise the siblings of the reference win over the fields of what it refers to. */
  lemma SiblingsWin(fields: map<string, Json>, name: string, schemas: Schemas, active: set<string>, k: string)
    requires "$ref" in fields && fields["$ref"] == Str("#/components/schemas/" + name)
    requires name in schemas && name !in active && Expand(schemas[name], schemas, active + {name}).Obj?
    ensures var target, r := Expand(schemas[name], schemas, active + {name}), Expand(Obj(fields), schemas, active);
      && r.Obj?
      && (k in r.fields <==> (k in fields && k != "$ref") || k in target.fields)
      && (k in fields && k != "$ref" ==> r.fields[k] == Expand(fields[k], schemas, active))
      && (k in target.fields && (k !in fields || k == "$ref") ==> r.fields[k] == target.fields[k])
  {
    PrefixIsStripped(name);
    assert Target(fields, schemas) == Some(name);
    ExpandRef(fields, schemas, active, name);
  }

  /** The value is the text of a reference to a component schema. */
  ghost predicate IsReference(v: Json, schemas: Schemas) {
    exists name :: name in schemas && v == Str("#/components/schemas/" + name)
  }

  lemma TargetIsReference(fields: map<string, Json>, schemas: Schemas)
    ensures Target(fields, schemas).Some? ==> "$ref" in fields && IsReference(fields["$ref"], schemas)
  {
    if Target(fields, schemas).Some? {
      var text := fields["$ref"].s;
      assert text == text[..|PREFIX|] + text[|PREFIX|..];
    }
  }

  /** An object is expanded field by field unless its `$ref` is such a text, an array item by
      item, and anything else is left as it is. */
  lemma OthersExpandInPlace(v: Json, schemas: Schemas, active: set<string>)
    requires v.Obj? && "$ref" in v.fields ==> !IsReference(v.fields["$ref"], schemas)
    ensures var r := Expand(v, schemas, active);
      match v
      case Obj(fields) =>
        r.Obj? && r.fields.Keys == fields.Keys && forall k :: k in fields ==> r.fields[k] == Expand(fields[k], schemas, active)
      case Arr(items) =>
        && r.Arr? && |r.items| == |items|
        && forall i :: 0 <= i < |items| ==> r.items[i] == Expand(items[i], schemas, active)
      case _ => r == v
  {
    if v.Obj? {
      TargetIsReference(v.fields, schemas);
    }
  }

  /** A reference whose target and siblings are known to be uncut. */
  lemma RefIsUncut(fields: map<string, Json>, schemas: Schemas, active: set<string>, name: string)
    requires Target(fields, schemas) == Some(name) && name !in active
    requires !Cuts(schemas[name], schemas, active + {name})
    requires Expand(schemas[name], schemas, active + {name}).Obj? ==>
      forall k :: k in fields && k != REF ==> !Cuts(fields[k], schemas, active)
    ensures !Cuts(Obj(fields), schemas, active)
  {
  }

  /** The expansion under way is the value's inlining within the depth. */
  ghost predicate InlinesTo(v: Json, schemas: Schemas, active: set<string>, depth: nat) {
    Inline(v, schemas, depth) == Some(Expand(v, schemas, active))
  }

  /** A reference whose target and siblings are known to inline. */
  lemma RefInlines(fields: map<string, Json>, schemas: Schemas, active: set<string>, depth: nat, name: string)
    requires Target(fields, schemas) == Some(name) && name !in active && depth > 0
    requires InlinesTo(schemas[name], schemas, active + {name}, depth - 1)
    requires Expand(schemas[name], schemas, active + {name}).Obj? ==>
      forall k :: k in fields && k != REF ==> InlinesTo(fields[k], schemas, active, depth)
    ensures InlinesTo(Obj(fields), schemas, active, depth)
  {
    hide Expand, Inline;
    InlineRef(fields, schemas, depth, name);
    ExpandRef(fields, schemas, active, name);
    if Expand(schemas[name], schemas, active + {name}).Obj? {
      var siblings := Siblings(fields);
      assert forall k :: k in siblings ==> Inline(siblings[k], schemas, depth) == Some(Expand(siblings[k], schemas, active));
      assert InlinedFields(siblings, schemas, depth) == ExpandedFields(siblings, schemas, active);
    }
  }

  lemma EntersOne(schemas: Schemas, active: set<string>, name: string)
    requires name in schemas && name !in active
    ensures schemas.Keys - (active + {name}) < schemas.Keys - active
    ensures |schemas.Keys - (active + {name})| + 1 == |schemas.Keys - active|
  {
    assert schemas.Keys - (active + {name}) == (schemas.Keys - active) - {name};
  }

  /** Where expansion makes no cut it is inlining, which then has a value within as many
      references as there are schemas left to enter. */
  lemma {:induction false} UncutIsInlined(v: Json, schemas: Schemas, active: set<string>, depth: nat)
    requires !Cuts(v, schemas, active) && depth >= |schemas.Keys - active|
    ensures InlinesTo(v, schemas, active, depth)
    decreases schemas.Keys - active, v
  {
    match v {
      case Arr(items) =>
        InlineArr(items, schemas, depth);
        forall i | 0 <= i < |items|
          ensures Inline(items[i], schemas, depth) == Some(Expand(items[i], schemas, active))
        {
          UncutIsInlined(items[i], schemas, active, depth);
        }
        assert Inline(v, schemas, depth).value.items == Expand(v, schemas, active).items;
      case Obj(fields) =>
        match Target(fields, schemas) {
          case None =>
            InlineObj(fields, schemas, depth);
            forall k | k in fields ensures Inline(fields[k], schemas, depth) == Some(Expand(fields[k], schemas, active)) {
              UncutIsInlined(fields[k], schemas, active, depth);
            }
            assert InlinedFields(fields, schemas, depth) == ExpandedFields(fields, schemas, active);
          case Some(name) => UncutRefIsInlined(fields, schemas, active, depth, name);
        }
      case _ =>
    }
  }

  /** What makes no cut at a reference makes none in its target or its siblings. */
  lemma UncutRef(fields: map<string, Json>, schemas: Schemas, active: set<string>, name: string)
    requires Target(fields, schemas) == Some(name) && !Cuts(Obj(fields), schemas, active)
    ensures name !in active && !Cuts(schemas[name], schemas, active + {name})
    ensures Expand(schemas[name], schemas, active + {name}).Obj? ==>
      forall k :: k in fields && k != REF ==> !Cuts(fields[k], schemas, active)
  {
  }

  lemma {:induction false} UncutSibling(fields: map<string, Json>, schemas: Schemas, active: set<string>, depth: nat, k: string)
    requires k in fields && !Cuts(fields[k], schemas, active) && depth >= |schemas.Keys - active|
    ensures InlinesTo(fields[k], schemas, active, depth)
    decreases schemas.Keys - active, Obj(fields), 0
  {
    UncutIsInlined(fields[k], schemas, active, depth);
  }

  lemma {:induction false} UncutTarget(fields: map<string, Json>, target: Json, schemas: Schemas,
                                       active: set<string>, inner: set<string>, depth: nat)
    requires schemas.Keys - inner < schemas.Keys - active
    requires depth >= |schemas.Keys - inner| && !Cuts(target, schemas, inner)
    ensures InlinesTo(target, schemas, inner, depth)
    decreases schemas.Keys - active, Obj(fields), 0
  {
    UncutIsInlined(target, schemas, inner, depth);
  }

  lemma {:induction false} UncutRefIsInlined(fields: map<string, Json>, schemas: Schemas, active: set<string>, depth: nat, name: string)
    requires Target(fields, schemas) == Some(name)
    requires !Cuts(Obj(fields), schemas, active) && depth >= |schemas.Keys - active|
    ensures InlinesTo(Obj(fields), schemas, active, depth)
    decreases schemas.Keys - active, Obj(fields), 1
  {
    UncutRef(fields, schemas, active, name);
    EntersOne(schemas, active, name);
    UncutTarget(fields, schemas[name], schemas, active, active + {name}, depth - 1);
    if Expand(schemas[name], schemas, active + {name}).Obj? {
      forall k | k in fields && k != REF ensures InlinesTo(fields[k], schemas, active, depth) {
        UncutSibling(fields, schemas, active, depth, k);
      }
    }
    RefInlines(fields, schemas, active, depth, name);
  }

  /** The schemas being expanded do not inline within the depth left for what is inside
      them, so nothing that inlines refers to them. */
  ghost predicate TooDeep(schemas: Schemas, active: set<string>, depth: nat) {
    forall name :: name in active && name in schemas && depth > 0 ==> !HasInline(schemas[name], schemas, depth - 1)
  }

  ghost predicate HasInline(v: Json, schemas: Schemas, n: nat) { Inline(v, schemas, n).Some? }

  lemma HasInlineIsMonotone(v: Json, schemas: Schemas, n: nat, m: nat)
    requires n <= m && HasInline(v, schemas, n)
    ensures HasInline(v, schemas, m)
  {
    InlineIsStable(v, schemas, n, m);
  }

  lemma LeastDepth(v: Json, schemas: Schemas, n: nat) returns (m: nat)
    requires HasInline(v, schemas, n)
    ensures m <= n && HasInline(v, schemas, m)
    ensures m > 0 ==> !HasInline(v, schemas, m - 1)
  {
    m := n;
    while m > 0 && HasInline(v, schemas, m - 1)
      invariant m <= n && HasInline(v, schemas, m)
    {
      m := m - 1;
    }
  }

  lemma StaysTooDeep(schemas: Schemas, active: set<string>, depth: nat, name: string, m: nat)
    requires TooDeep(schemas, active, depth) && name in schemas && m < depth
    requires m > 0 ==> !HasInline(schemas[name], schemas, m - 1)
    ensures TooDeep(schemas, active + {name}, m)
  {
    forall a | a in active && a in schemas && m > 0 ensures !HasInline(schemas[a], schemas, m - 1) {
      if HasInline(schemas[a], schemas, m - 1) {
        HasInlineIsMonotone(schemas[a], schemas, m - 1, depth - 1);
      }
    }
  }

  /** What inlines is expanded without a cut, to the same value. */
  lemma {:induction false} InlinedIsUncut(v: Json, schemas: Schemas, active: set<string>, depth: nat)
    requires Inline(v, schemas, depth).Some? && TooDeep(schemas, active, depth)
    ensures !Cuts(v, schemas, active) && Inline(v, schemas, depth) == Some(Expand(v, schemas, active))
    decreases depth, v
  {
    match v {
      case Arr(items) =>
        InlineArr(items, schemas, depth);
        forall i | 0 <= i < |items|
          ensures !Cuts(items[i], schemas, active)
          ensures Inline(items[i], schemas, depth) == Some(Expand(items[i], schemas, active))
        {
          InlinedIsUncut(items[i], schemas, active, depth);
        }
        assert Inline(v, schemas, depth).value.items == Expand(v, schemas, active).items;
      case Obj(fields) =>
        match Target(fields, schemas) {
          case None =>
            InlineObj(fields, schemas, depth);
            forall k | k in fields
              ensures !Cuts(fields[k], schemas, active)
              ensures Inline(fields[k], schemas, depth) == Some(Expand(fields[k], schemas, active))
            {
              InlinedIsUncut(fields[k], schemas, active, depth);
            }
            assert InlinedFields(fields, schemas, depth) == ExpandedFields(fields, schemas, active);
          case Some(name) =>
            InlinedRefIsUncut(fields, schemas, active, depth, name);
        }
      case _ =>
    }
  }

  lemma {:induction false} InlinedRefIsUncut(fields: map<string, Json>, schemas: Schemas, active: set<string>, depth: nat, name: string)
    requires Target(fields, schemas) == Some(name)
    requires Inline(Obj(fields), schemas, depth).Some? && TooDeep(schemas, active, depth)
    ensures !Cuts(Obj(fields), schemas, active)
    ensures Inline(Obj(fields), schemas, depth) == Some(Expand(Obj(fields), schemas, active))
    decreases depth, Obj(fields), 0
  {
    InlineRef(fields, schemas, depth, name);
    assert HasInline(schemas[name], schemas, depth - 1);
    var m := LeastDepth(schemas[name], schemas, depth - 1);
    StaysTooDeep(schemas, active, depth, name, m);
    InlinedIsUncut(schemas[name], schemas, active + {name}, m);
    InlineIsStable(schemas[name], schemas, m, depth - 1);
    if Expand(schemas[name], schemas, active + {name}).Obj? {
      assert FieldsInline(Siblings(fields), schemas, depth);
      forall k | k in fields && k != REF
        ensures !Cuts(fields[k], schemas, active)
        ensures InlinesTo(fields[k], schemas, active, depth)
      {
        assert k in Siblings(fields);
        InlinedIsUncut(fields[k], schemas, active, depth);
      }
    }
    RefIsUncut(fields, schemas, active, name);
    RefInlines(fields, schemas, active, depth, name);
  }

  /** Expansion preserves meaning exactly where there is one: a document inlines to a
      finite value if and only if its expansion makes no cut, and then its expansion is
      that value. */
  lemma ExpansionIsInlining(v: Json, schemas: Schemas)
    ensures (exists depth :: Inline(v, schemas, depth).Some?) <==> !Cuts(v, schemas, {})
    ensures forall depth :: Inline(v, schemas, depth).Some? ==>
      Inline(v, schemas, depth).value == Expand(v, schemas, {})
  {
    if !Cuts(v, schemas, {}) {
      var depth := |schemas.Keys - {}|;
      UncutIsInlined(v, schemas, {}, depth);
      assert Inline(v, schemas, depth).Some?;
    }
    forall depth | Inline(v, schemas, depth).Some?
      ensures !Cuts(v, schemas, {}) && Inline(v, schemas, depth).value == Expand(v, schemas, {})
    {
      InlinedIsUncut(v, schemas, {}, depth);
    }
  }

  // ------------------------------------------------------------ nothing left to expand

  /** No object in the value refers to an existing schema. */
  predicate Settled(v: Json, schemas: Schemas) {
    match v
    case Arr(items) => forall i :: 0 <= i < |items| ==> Settled(items[i], schemas)
    case Obj(fields) => Target(fields, schemas).None? && forall k :: k in fields ==> Settled(fields[k], schemas)
    case _ => true
  }

  /** Expanding what has nothing left to expand changes nothing. */
  lemma {:induction false} SettledIsFixed(v: Json, schemas: Schemas, active: set<string>)
    requires Settled(v, schemas)
    ensures Expand(v, schemas, active) == v
  {
    match v {
      case Arr(items) =>
        forall i | 0 <= i < |items| ensures Expand(items[i], schemas, active) == items[i] {
          SettledIsFixed(items[i], schemas, active);
        }
        assert Expand(v, schemas, active).items == items;
      case Obj(fields) =>
        forall k | k in fields ensures Expand(fields[k], schemas, active) == fields[k] {
          SettledIsFixed(fields[k], schemas, active);
        }
        assert Expand(v, schemas, active).fields == fields;
      case _ =>
    }
  }

  /** No schema is itself the bare text of a reference to a schema. */
  ghost predicate NoBareReference(schemas: Schemas) {
    forall name :: name in schemas ==> Names(schemas[name], schemas).None?
  }

  /** Expansion does not turn a value that is not the text of a reference into one. */
  lemma {:induction false} ExpandMakesNoReference(v: Json, schemas: Schemas, active: set<string>)
    requires NoBareReference(schemas) && Names(v, schemas).None?
    ensures Names(Expand(v, schemas, active), schemas).None?
    decreases schemas.Keys - active, v
  {
    if v.Obj? {
      match Target(v.fields, schemas) {
        case None =>
        case Some(name) =>
          if name !in active {
            EntersOne(schemas, active, name);
            ExpandMakesNoReference(schemas[name], schemas, active + {name});
          }
      }
    }
  }

  ghost predicate SettlesIn(v: Json, schemas: Schemas, active: set<string>) { Settled(Expand(v, schemas, active), schemas) }

  lemma {:induction false} ExpandSettles(v: Json, schemas: Schemas, active: set<string>)
    requires NoBareReference(schemas)
    ensures SettlesIn(v, schemas, active)
    decreases schemas.Keys - active, v
  {
    match v {
      case Arr(items) =>
        forall i | 0 <= i < |items| ensures SettlesIn(items[i], schemas, active) {
          ExpandSettles(items[i], schemas, active);
        }
        ItemsSettle(items, schemas, active);
      case Obj(fields) =>
        forall k | k in fields ensures SettlesIn(fields[k], schemas, active) {
          ExpandSettles(fields[k], schemas, active);
        }
        match Target(fields, schemas) {
          case None => PlainSettles(fields, schemas, active);
          case Some(name) =>
            if name in active {
              CutSettles(fields, schemas, active, name);
            } else {
              EntersOne(schemas, active, name);
              ExpandSettles(schemas[name], schemas, active + {name});
              ReferenceSettles(fields, schemas, active, name);
            }
        }
      case _ => LeafSettles(v, schemas, active);
    }
  }

  lemma LeafSettles(v: Json, schemas: Schemas, active: set<string>)
    requires !v.Arr? && !v.Obj?
    ensures SettlesIn(v, schemas, active)
  {
  }

  lemma ItemsSettle(items: seq<Json>, schemas: Schemas, active: set<string>)
    requires forall i :: 0 <= i < |items| ==> SettlesIn(items[i], schemas, active)
    ensures SettlesIn(Arr(items), schemas, active)
  {
  }

  lemma CutSettles(fields: map<string, Json>, schemas: Schemas, active: set<string>, name: string)
    requires Target(fields, schemas) == Some(name) && name in active
    ensures SettlesIn(Obj(fields), schemas, active)
  {
    assert REF !in CUT.fields;
  }

  lemma PlainSettles(fields: map<string, Json>, schemas: Schemas, active: set<string>)
    requires NoBareReference(schemas) && Target(fields, schemas).None?
    requires forall k :: k in fields ==> SettlesIn(fields[k], schemas, active)
    ensures SettlesIn(Obj(fields), schemas, active)
  {
    if REF in fields {
      ExpandMakesNoReference(fields[REF], schemas, active);
    }
  }

  lemma ReferenceSettles(fields: map<string, Json>, schemas: Schemas, active: set<string>, name: string)
    requires Target(fields, schemas) == Some(name) && name !in active
    requires SettlesIn(schemas[name], schemas, active + {name})
    requires forall k :: k in fields ==> SettlesIn(fields[k], schemas, active)
    ensures SettlesIn(Obj(fields), schemas, active)
  {
    ExpandRef(fields, schemas, active, name);
    OverrideSettles(Expand(schemas[name], schemas, active + {name}),
                    ExpandedFields(Siblings(fields), schemas, active), schemas);
  }

  lemma OverrideSettles(target: Json, siblings: map<string, Json>, schemas: Schemas)
    requires Settled(target, schemas) && REF !in siblings
    requires forall k :: k in siblings ==> Settled(siblings[k], schemas)
    ensures Settled(Override(target, siblings), schemas)
  {
  }

  function Ref(name: string): Json { Obj(map[REF := Str(PREFIX + name)]) }

  /** A schema that is the bare text of a reference puts a live reference into the
      expansion of a document whose own `$ref` is an object that refers to it. */
  lemma BareReferenceSurvives(schemas: Schemas, name: string)
    requires name in schemas && Names(schemas[name], schemas).Some?
    ensures !Settled(Expand(Obj(map[REF := Ref(name)]), schemas, {}), schemas)
  {
    var inner := Ref(name).fields;
    assert StripPrefix(PREFIX + name) == Some(name);
    assert Target(inner, schemas) == Some(name);
    assert Expand(Ref(name), schemas, {}) == schemas[name];
    var outer := map[REF := Ref(name)];
    assert Target(outer, schemas).None?;
    assert Expand(Obj(outer), schemas, {}).fields[REF] == schemas[name];
  }

  /** Expansion leaves no object that still refers to an existing schema, whatever the
      document and whatever the cycles among the schemas, exactly when no schema is
      itself the bare text of a reference. */
  lemma ExpansionSettlesExactlyWhen(schemas: Schemas)
    ensures (forall v :: Settled(Expand(v, schemas, {}), schemas)) <==> NoBareReference(schemas)
  {
    if NoBareReference(schemas) {
      forall v ensures Settled(Expand(v, schemas, {}), schemas) {
        ExpandSettles(v, schemas, {});
      }
    } else {
      var name :| name in schemas && Names(schemas[name], schemas).Some?;
      BareReferenceSurvives(schemas, name);
    }
  }

  /** Expanding twice is expanding once. */
  lemma ExpansionIsIdempotent(v: Json, schemas: Schemas)
    requires NoBareReference(schemas)
    ensures Expand(Expand(v, schemas, {}), schemas, {}) == Expand(v, schemas, {})
  {
    ExpandSettles(v, schemas, {});
    SettledIsFixed(Expand(v, schemas, {}), schemas, {});
  }

  // --------------------------------------------------------- a cut is a reference cycle

  /** `name` is the target of some reference in the value. */
  predicate Mentions(v: Json, schemas: Schemas, name: string) {
    match v
    case Arr(items) => exists i :: 0 <= i < |items| && Mentions(items[i], schemas, name)
    case Obj(fields) =>
      Target(fields, schemas) == Some(name) || exists k :: k in fields && Mentions(fields[k], schemas, name)
    case _ => false
  }

  /** Schemas, each mentioned in the one before it. */
  ghost predicate IsChain(schemas: Schemas, chain: seq<string>) {
    && (forall i :: 0 <= i < |chain| ==> chain[i] in schemas)
    && (forall i :: 0 < i < |chain| ==> Mentions(schemas[chain[i - 1]], schemas, chain[i]))
  }

  ghost predicate Inside(v: Json, schemas: Schemas, chain: seq<string>) {
    chain != [] ==>
      chain[|chain| - 1] in schemas
      && forall name :: Mentions(v, schemas, name) ==> Mentions(schemas[chain[|chain| - 1]], schemas, name)
  }

  ghost predicate IsCycle(schemas: Schemas, cycle: seq<string>) {
    |cycle| >= 2 && IsChain(schemas, cycle) && cycle[0] == cycle[|cycle| - 1]
  }

  function NamesOf(chain: seq<string>): set<string> { set name | name in chain }

  lemma InsideItem(items: seq<Json>, i: nat, schemas: Schemas, chain: seq<string>)
    requires i < |items| && Inside(Arr(items), schemas, chain)
    ensures Inside(items[i], schemas, chain)
  {
    forall name | Mentions(items[i], schemas, name) ensures Mentions(Arr(items), schemas, name) {}
  }

  lemma InsideField(fields: map<string, Json>, k: string, schemas: Schemas, chain: seq<string>)
    requires k in fields && Inside(Obj(fields), schemas, chain)
    ensures Inside(fields[k], schemas, chain)
  {
    forall name | Mentions(fields[k], schemas, name) ensures Mentions(Obj(fields), schemas, name) {}
  }

  lemma ChainGrows(fields: map<string, Json>, schemas: Schemas, chain: seq<string>, name: string)
    requires IsChain(schemas, chain) && Inside(Obj(fields), schemas, chain)
    requires Target(fields, schemas) == Some(name)
    ensures IsChain(schemas, chain + [name]) && Inside(schemas[name], schemas, chain + [name])
    ensures NamesOf(chain + [name]) == NamesOf(chain) + {name}
  {
    var longer := chain + [name];
    assert Mentions(Obj(fields), schemas, name);
    forall i | 0 < i < |longer| ensures Mentions(schemas[longer[i - 1]], schemas, longer[i]) {
      if i < |chain| { assert longer[i] == chain[i] && longer[i - 1] == chain[i - 1]; }
    }
    assert forall x :: x in longer <==> x in chain || x == name;
  }

  lemma ChainCloses(schemas: Schemas, chain: seq<string>, name: string) returns (cycle: seq<string>)
    requires IsChain(schemas, chain + [name]) && name in chain
    ensures IsCycle(schemas, cycle)
  {
    var longer := chain + [name];
    var i :| 0 <= i < |chain| && chain[i] == name;
    cycle := longer[i..];
    forall j | 0 < j < |cycle| ensures Mentions(schemas[cycle[j - 1]], schemas, cycle[j]) {
      assert cycle[j] == longer[i + j] && cycle[j - 1] == longer[i + j - 1];
    }
  }

  /** A cut is made only for a reference to a schema on the chain being expanded, so
      only where the schemas refer to one another in a cycle. */
  lemma {:induction false} CutIsACycle(v: Json, schemas: Schemas, chain: seq<string>) returns (cycle: seq<string>)
    requires IsChain(schemas, chain) && Inside(v, schemas, chain)
    requires Cuts(v, schemas, NamesOf(chain))
    ensures IsCycle(schemas, cycle)
    decreases schemas.Keys - NamesOf(chain), v
  {
    if v.Arr? {
      var i :| 0 <= i < |v.items| && Cuts(v.items[i], schemas, NamesOf(chain));
      InsideItem(v.items, i, schemas, chain);
      cycle := CutIsACycle(v.items[i], schemas, chain);
    } else if Target(v.fields, schemas).None? {
      var k :| k in v.fields && Cuts(v.fields[k], schemas, NamesOf(chain));
      InsideField(v.fields, k, schemas, chain);
      cycle := CutIsACycle(v.fields[k], schemas, chain);
    } else {
      cycle := CutRefIsACycle(v.fields, schemas, chain, Target(v.fields, schemas).value);
    }
  }

  lemma {:induction false} CutRefIsACycle(fields: map<string, Json>, schemas: Schemas, chain: seq<string>, name: string)
      returns (cycle: seq<string>)
    requires IsChain(schemas, chain) && Inside(Obj(fields), schemas, chain)
    requires Target(fields, schemas) == Some(name) && Cuts(Obj(fields), schemas, NamesOf(chain))
    ensures IsCycle(schemas, cycle)
    decreases schemas.Keys - NamesOf(chain), Obj(fields), 0
  {
    ChainGrows(fields, schemas, chain, name);
    if name in NamesOf(chain) {
      cycle := ChainCloses(schemas, chain, name);
    } else if Cuts(schemas[name], schemas, NamesOf(chain) + {name}) {
      EntersOne(schemas, NamesOf(chain), name);
      cycle := CutIsACycle(schemas[name], schemas, chain + [name]);
    } else {
      var k :| k in fields && k != REF && Cuts(fields[k], schemas, NamesOf(chain));
      InsideField(fields, k, schemas, chain);
      cycle := CutIsACycle(fields[k], schemas, chain);
    }
  }

  /** With no reference cycle among the schemas, expansion makes no cut and is plain
      inlining. */
  lemma AcyclicExpansionIsInlining(v: Json, schemas: Schemas)
    requires forall cycle :: !IsCycle(schemas, cycle)
    ensures Inline(v, schemas, |schemas|) == Some(Expand(v, schemas, {}))
  {
    if Cuts(v, schemas, {}) {
      assert NamesOf([]) == {};
      var cycle := CutIsACycle(v, schemas, []);
      assert false;
    }
    assert schemas.Keys - {} == schemas.Keys;
    UncutIsInlined(v, schemas, {}, |schemas|);
  }

  // ------------------------------------------------------------------ the program's form

  /** The expansion as the program runs it, on one set of schemas being expanded that it
      grows and shrinks as it goes: it computes `Expand`, and leaves the set as it was. */
  method ExpandOpenApiRefs(v: Json, schemas: Schemas, active: set<string>) returns (r: Json, left: set<string>)
    ensures r == Expand(v, schemas, active)
    ensures left == active
    decreases schemas.Keys - active, v, 2
  {
    left := active;
    match v {
      case Arr(items) =>
        var out: seq<Json> := [];
        for i := 0 to |items|
          invariant left == active
          invariant |out| == i && forall j :: 0 <= j < i ==> out[j] == Expand(items[j], schemas, active)
        {
          var e: Json;
          e, left := ExpandOpenApiRefs(items[i], schemas, left);
          out := out + [e];
        }
        assert out == Expand(v, schemas, active).items;
        r := Arr(out);
      case Obj(fields) =>
        var target := Target(fields, schemas);
        if target == None {
          var out: map<string, Json>;
          out, left := ExpandFields(v, fields, schemas, left);
          assert out == Expand(v, schemas, active).fields;
          r := Obj(out);
        } else if target.value in left {
          r := CUT;
        } else {
          r, left := ExpandReference(v, schemas, left, target.value);
        }
      case _ => r := v;
    }
  }

  method ExpandReference(v: Json, schemas: Schemas, active: set<string>, name: string) returns (r: Json, left: set<string>)
    requires v.Obj? && Target(v.fields, schemas) == Some(name) && name !in active
    ensures r == Expand(v, schemas, active)
    ensures left == active
    decreases schemas.Keys - active, v, 1
  {
    EntersOne(schemas, active, name);
    r, left := ExpandOpenApiRefs(schemas[name], schemas, active + {name});
    left := left - {name};
    if r.Obj? {
      var siblings: map<string, Json>;
      siblings, left := ExpandFields(v, Siblings(v.fields), schemas, left);
      r := Obj(r.fields + siblings);
    }
    ExpandRef(v.fields, schemas, active, name);
  }

  /** The loop over the fields of an object `v`, or over those beside its `$ref`. */
  method ExpandFields(v: Json, fields: map<string, Json>, schemas: Schemas, active: set<string>)
      returns (out: map<string, Json>, left: set<string>)
    requires v.Obj? && fields.Keys <= v.fields.Keys && forall k :: k in fields ==> fields[k] == v.fields[k]
    ensures out == ExpandedFields(fields, schemas, active)
    ensures left == active
    decreases schemas.Keys - active, v, 0
  {
    out, left := map[], active;
    var todo := fields.Keys;
    while todo != {}
      invariant todo <= fields.Keys && left == active
      invariant out.Keys == fields.Keys - todo
      invariant forall k :: k in out ==> out[k] == Expand(fields[k], schemas, active)
      decreases todo
    {
      var k :| k in todo;
      var e: Json;
      e, left := ExpandOpenApiRefs(v.fields[k], schemas, left);
      out := out[k := e];
      todo := todo - {k};
    }
  }
}
