/**
 * The tagged-union schema of tagged.ts: dispatch tables from tag to member
 * schema, and the guard, parser, constructor, encoder and match that
 * dispatch on the tag field of a value. Member schemas are opaque: a member
 * is its tag field together with its guard, parser and encoder.
 */
module Tagged {
  import opened DataTypes

  /** The unknown values a schema inspects, as far as dispatch needs them. */
  datatype Value =
    | Undefined
    | Null
    | Bool(b: bool)
    | Num(n: int)
    | Str(s: string)
    | Obj(fields: map<string, Value>)

  /** Decimal digits of a natural number. */
  function NatDigits(n: nat): (r: string)
    ensures |r| >= 1
    ensures forall i :: 0 <= i < |r| ==> '0' <= r[i] <= '9'
    ensures n < 10 ==> |r| == 1
    ensures n >= 10 ==> |r| >= 2
    ensures r[|r| - 1] == (('0' as int) + n % 10) as char
  {
    var d := [(('0' as int) + n % 10) as char];
    if n < 10 then d else NatDigits(n / 10) + d
  }

  /** The decimal string of a number, used when it indexes an object. */
  function IntToString(n: int): string {
    if n < 0 then "-" + NatDigits(-n) else NatDigits(n)
  }

  /** Different naturals have different decimal digits. */
  lemma {:induction false} NatDigitsInjective(a: nat, b: nat)
    requires NatDigits(a) == NatDigits(b)
    ensures a == b
  {
    var r := NatDigits(a);
    assert a % 10 == b % 10 by {
      assert (('0' as int) + a % 10) as char == (('0' as int) + b % 10) as char;
    }
    if a >= 10 {
      assert b >= 10;
      assert r[..|r| - 1] == NatDigits(a / 10);
      assert r[..|r| - 1] == NatDigits(b / 10);
      NatDigitsInjective(a / 10, b / 10);
    }
  }

  /** The decimal string of a number begins with a minus sign exactly when the number is negative. */
  lemma SignOfDecimal(n: int)
    ensures |IntToString(n)| >= 1
    ensures IntToString(n)[0] == '-' <==> n < 0
  {
    if n >= 0 {
      assert '0' <= NatDigits(n)[0] <= '9';
    }
  }

  /**
   * Numeric tags never collide: two different numbers index different
   * table entries, so a numeric tag selects only the member whose tag is
   * its own decimal string.
   */
  lemma NumberTagsAreDistinct(a: int, b: int)
    requires PropertyKey(Num(a)) == PropertyKey(Num(b))
    ensures a == b
  {
    var k := IntToString(a);
    assert k == IntToString(b) == PropertyKey(Num(a));
    SignOfDecimal(a);
    SignOfDecimal(b);
    if a < 0 {
      assert b < 0;
      assert k == "-" + NatDigits(-a) == "-" + NatDigits(-b);
      assert k[1..] == NatDigits(-a) == NatDigits(-b);
      NatDigitsInjective(-a, -b);
    } else {
      assert b >= 0;
      NatDigitsInjective(a, b);
    }
  }

  /**
   * The property key a value becomes when it indexes a table: strings as
   * they are, every other value by its string conversion.
   */
  function PropertyKey(v: Value): string {
    match v
    case Str(s) => s
    case Num(n) => IntToString(n)
    case Bool(b) => if b then "true" else "false"
    case Null => "null"
    case Undefined => "undefined"
    case Obj(_) => "[object Object]"
  }

  /** `TagApi`: the api of a tag schema, carrying the tag. */
  datatype TagApi = TagApi(value: string)

  /** `tag(k)`: the api of the literal schema for `k`, whose `value` is `k`. */
  function Tag(k: string): TagApi {
    TagApi(k)
  }

  /** A parse result: an error, or a value with possibly some warnings. */
  datatype These<E, A> = Failed(error: E) | Parsed(value: A, warnings: Option<E>)

  /** A member schema: the apis of its fields, and its guard, parser and encoder. */
  datatype Member<E> = Member(
    fields: map<string, TagApi>,
    guard: Value -> bool,
    parse: Value -> These<E, Value>,
    encode: Value -> Value)

  /** The error wrappers of the schema library. */
  datatype ExtractKeyE = ExtractKeyE(field: string, actual: Value, keys: seq<string>)
  datatype LeafE<T> = LeafE(error: T)
  datatype KeyedMemberE<E> = KeyedMemberE(error: E, key: Value)
  datatype UnionMemberE<T> = UnionMemberE(error: T)
  datatype UnionE<T> = UnionE(errors: seq<T>)
  datatype CompositionStep<P, N> = PrevE(prev: P) | NextE(next: N)
  datatype CompositionE<T> = CompositionE(errors: seq<T>)

  /** The constructor's error: the member's error keyed by the tag. */
  type ConstructError<E> = UnionE<UnionMemberE<KeyedMemberE<E>>>
  /** The parser's error: a missing tag, or a member error as for the constructor. */
  type ParseError<E> = CompositionE<CompositionStep<LeafE<ExtractKeyE>, ConstructError<E>>>

  /** The member error or warning `e` of the member for tag value `tag`. */
  function MemberError<E>(e: E, tag: Value): ConstructError<E> {
    UnionE([UnionMemberE(KeyedMemberE(e, tag))])
  }

  /** A constructor error inside the parser's composition, as its `next` step. */
  function InNext<E>(e: ConstructError<E>): ParseError<E> {
    CompositionE([NextE(e)])
  }

  /** The parser's error for an input whose tag selects no member. */
  function MissingTag<E>(key: string, u: Value, keys: seq<string>): ParseError<E> {
    CompositionE([PrevE(LeafE(ExtractKeyE(key, u, keys)))])
  }

  /**
   * The tables `makeTagged` fills: `members[t]` is the member schema whose
   * guard, parser and encoder the dictionaries `guards`, `parsers` and
   * `encoders` hold under `t` (the four dictionaries are always written
   * together, under the same key, from the same member), and `keys` the
   * tags in argument order.
   */
  datatype Tables<E> = Tables(members: map<string, Member<E>>, keys: seq<string>)

  /** Every member has the tag field `key`, as the member schema type demands. */
  predicate HasTagField<E>(key: string, props: seq<Member<E>>) {
    forall i :: 0 <= i < |props| ==> key in props[i].fields
  }

  /** The tag of a member under the tag field `key`. */
  function TagOf<E>(key: string, p: Member<E>): string
    requires key in p.fields
  {
    p.fields[key].value
  }

  /**
   * The tables after registering `props` one after the other: each write
   * under a tag replaces the earlier one, and each tag is appended to `keys`.
   */
  function TablesOf<E>(key: string, props: seq<Member<E>>): Tables<E>
    requires HasTagField(key, props)
  {
    if props == [] then Tables(map[], [])
    else
      var t := TablesOf(key, props[..|props| - 1]);
      var p := props[|props| - 1];
      Tables(t.members[TagOf(key, p) := p], t.keys + [TagOf(key, p)])
  }

  /** No tag is used by two members. */
  predicate DistinctTags<E>(key: string, props: seq<Member<E>>)
    requires HasTagField(key, props)
  {
    forall i, j :: 0 <= i < j < |props| ==> TagOf(key, props[i]) != TagOf(key, props[j])
  }

  /** No member after the `i`-th carries its tag. */
  predicate LastWithItsTag<E>(key: string, props: seq<Member<E>>, i: nat)
    requires HasTagField(key, props) && i < |props|
  {
    forall j :: i < j < |props| ==> TagOf(key, props[j]) != TagOf(key, props[i])
  }

  lemma {:induction false} TableKeysInOrder<E>(key: string, props: seq<Member<E>>)
    requires HasTagField(key, props)
    ensures |TablesOf(key, props).keys| == |props|
    ensures forall i :: 0 <= i < |props| ==> TablesOf(key, props).keys[i] == TagOf(key, props[i])
  {
    if props != [] {
      var init := props[..|props| - 1];
      assert HasTagField(key, init);
      TableKeysInOrder(key, init);
      assert forall i :: 0 <= i < |init| ==> props[i] == init[i];
    }
  }

  lemma {:induction false} TableDomainIsKeys<E>(key: string, props: seq<Member<E>>)
    requires HasTagField(key, props)
    ensures forall k :: k in TablesOf(key, props).members <==> k in TablesOf(key, props).keys
  {
    if props != [] {
      var init := props[..|props| - 1];
      assert HasTagField(key, init);
      TableDomainIsKeys(key, init);
      var t := TablesOf(key, init);
      var last := TagOf(key, props[|props| - 1]);
      forall k ensures k in TablesOf(key, props).members <==> k in TablesOf(key, props).keys {
        assert k in t.keys + [last] <==> k in t.keys || k == last;
      }
    }
  }

  lemma {:induction false} TableLastWriteWins<E>(key: string, props: seq<Member<E>>, i: nat)
    requires HasTagField(key, props) && i < |props| && LastWithItsTag(key, props, i)
    ensures TagOf(key, props[i]) in TablesOf(key, props).members
    ensures TablesOf(key, props).members[TagOf(key, props[i])] == props[i]
  {
    if i < |props| - 1 {
      var init := props[..|props| - 1];
      assert HasTagField(key, init);
      assert props[i] == init[i];
      assert TagOf(key, props[|props| - 1]) != TagOf(key, props[i]);
      assert LastWithItsTag(key, init, i) by {
        forall j | i < j < |init| ensures TagOf(key, init[j]) != TagOf(key, init[i]) {
          assert init[j] == props[j];
        }
      }
      TableLastWriteWins(key, init, i);
    }
  }

  /**
   * After table building `keys` holds each member's tag in argument order,
   * the tables hold exactly the tags of the members, and each tag selects
   * the last member that carries it.
   */
  lemma TablesRegisterEveryMember<E>(key: string, props: seq<Member<E>>)
    requires HasTagField(key, props)
    ensures |TablesOf(key, props).keys| == |props|
    ensures forall i :: 0 <= i < |props| ==> TablesOf(key, props).keys[i] == TagOf(key, props[i])
    ensures forall k :: k in TablesOf(key, props).members <==> k in TablesOf(key, props).keys
    ensures forall i :: 0 <= i < |props| && LastWithItsTag(key, props, i)
              ==> TablesOf(key, props).members[TagOf(key, props[i])] == props[i]
  {
    TableKeysInOrder(key, props);
    TableDomainIsKeys(key, props);
    forall i | 0 <= i < |props| && LastWithItsTag(key, props, i)
      ensures TablesOf(key, props).members[TagOf(key, props[i])] == props[i]
    {
      TableLastWriteWins(key, props, i);
    }
  }

  /** A tag is registered exactly when some member carries it. */
  lemma RegisteredIffCarried<E>(key: string, props: seq<Member<E>>, t: string)
    requires HasTagField(key, props)
    ensures t in TablesOf(key, props).members <==> exists i :: 0 <= i < |props| && TagOf(key, props[i]) == t
  {
    TableKeysInOrder(key, props);
    TableDomainIsKeys(key, props);
    if t in TablesOf(key, props).members {
      var i :| 0 <= i < |TablesOf(key, props).keys| && TablesOf(key, props).keys[i] == t;
      assert TagOf(key, props[i]) == t;
    }
  }

  /** With distinct tags, tag `t` selects exactly the member carrying it. */
  lemma SelectsTheMemberWithTheTag<E>(key: string, props: seq<Member<E>>, t: string)
    requires HasTagField(key, props) && DistinctTags(key, props)
    ensures t in TablesOf(key, props).members <==> exists i :: 0 <= i < |props| && TagOf(key, props[i]) == t
    ensures forall i :: 0 <= i < |props| && TagOf(key, props[i]) == t ==> TablesOf(key, props).members[t] == props[i]
  {
    TablesRegisterEveryMember(key, props);
    if t in TablesOf(key, props).members {
      var i :| 0 <= i < |TablesOf(key, props).keys| && TablesOf(key, props).keys[i] == t;
      assert TagOf(key, props[i]) == t;
    }
  }

  /**
   * The schema `makeTagged(key)(...props)` returns: the tag field and the
   * tables its guard, parser, constructor, encoder and match dispatch on.
   */
  datatype TaggedSchema<E> = TaggedSchema(key: string, tables: Tables<E>) {

    /** The registered tag `u` carries, if `u` is an object with the tag field. */
    function Selected(u: Value): (t: Option<string>)
      ensures t.Some? <==> u.Obj? && key in u.fields && PropertyKey(u.fields[key]) in tables.members
      ensures t.Some? ==> t.value == PropertyKey(u.fields[key])
    {
      match u
      case Obj(fs) =>
        if key in fs && PropertyKey(fs[key]) in tables.members then Some(PropertyKey(fs[key])) else None
      case _ => None
    }

    /** `guard`: the verdict of the member the tag selects, and false when none is selected. */
    function Guard(u: Value): bool {
      match Selected(u)
      case Some(t) => tables.members[t].guard(u)
      case None => false
    }

    /**
     * `parser`: the result of the parser of the member the tag selects,
     * with its error or warnings wrapped and keyed by the tag; a missing
     * or unknown tag fails.
     */
    function Parse(u: Value): These<ParseError<E>, Value> {
      match Selected(u)
      case None => Failed(MissingTag(key, u, tables.keys))
      case Some(t) =>
        match tables.members[t].parse(u)
        case Failed(e) => Failed(InNext(MemberError(e, u.fields[key])))
        case Parsed(a, None) => Parsed(a, None)
        case Parsed(a, Some(w)) => Parsed(a, Some(InNext(MemberError(w, u.fields[key]))))
    }

    /**
     * `constructor`: runs the parser registered for the input's tag, which
     * the constructor input type guarantees exists, and keys its error or
     * warnings by the tag.
     */
    function Construct(u: Value): These<ConstructError<E>, Value>
      requires Selected(u).Some?
    {
      var tag := u.fields[key];
      match tables.members[PropertyKey(tag)].parse(u)
      case Failed(e) => Failed(MemberError(e, tag))
      case Parsed(a, None) => Parsed(a, None)
      case Parsed(a, Some(w)) => Parsed(a, Some(MemberError(w, tag)))
    }

    /** `encoder`: the encoder registered for the value's tag. */
    function Encode(a: Value): Value
      requires Selected(a).Some?
    {
      tables.members[PropertyKey(a.fields[key])].encode(a)
    }

    /**
     * `matchS` and `matchW` (the same function at run time): the handler
     * for the value's tag, applied to the value.
     */
    function Match<R>(handlers: map<string, Value -> R>, a: Value): R
      requires a.Obj? && key in a.fields && PropertyKey(a.fields[key]) in handlers
    {
      handlers[PropertyKey(a.fields[key])](a)
    }
  }

  /**
   * `makeTagged(key)(...props)`: fills the tables member by member, the
   * later of two members with the same tag replacing the earlier, and
   * records every tag in order.
   */
  method MakeTagged<E>(key: string, props: seq<Member<E>>) returns (schema: TaggedSchema<E>)
    requires HasTagField(key, props)
    ensures schema.key == key
    ensures schema.tables.members == TablesOf(key, props).members
    ensures schema.tables.keys == TablesOf(key, props).keys
  {
    var members: map<string, Member<E>> := map[];
    var keys: seq<string> := [];
    for i := 0 to |props|
      invariant HasTagField(key, props[..i])
      invariant members == TablesOf(key, props[..i]).members
      invariant keys == TablesOf(key, props[..i]).keys
    {
      var p := props[i];
      assert props[..i + 1][..i] == props[..i];
      members := members[p.fields[key].value := p];
      keys := keys + [p.fields[key].value];
    }
    assert props[..|props|] == props;
    schema := TaggedSchema(key, Tables(members, keys));
  }

  /** `tagged`: `makeTagged` on the tag field `_tag`. */
  method MakeTaggedOnTag<E>(props: seq<Member<E>>) returns (schema: TaggedSchema<E>)
    requires HasTagField("_tag", props)
    ensures schema.key == "_tag"
    ensures schema.tables.members == TablesOf("_tag", props).members
    ensures schema.tables.keys == TablesOf("_tag", props).keys
  {
    schema := MakeTagged("_tag", props);
  }

  /** The schema `makeTagged(key)(...props)` returns. */
  function SchemaOf<E>(key: string, props: seq<Member<E>>): TaggedSchema<E>
    requires HasTagField(key, props)
  {
    TaggedSchema(key, TablesOf(key, props))
  }

  /**
   * With distinct tags the guard accepts exactly the objects whose tag
   * field names some member's tag and which that member's guard accepts.
   */
  lemma GuardAcceptsExactlyMembers<E>(key: string, props: seq<Member<E>>, u: Value)
    requires HasTagField(key, props) && DistinctTags(key, props)
    ensures SchemaOf(key, props).Guard(u) <==>
              u.Obj? && key in u.fields &&
              exists i :: 0 <= i < |props| && TagOf(key, props[i]) == PropertyKey(u.fields[key]) && props[i].guard(u)
  {
    if u.Obj? && key in u.fields {
      SelectsTheMemberWithTheTag(key, props, PropertyKey(u.fields[key]));
    }
  }

  /**
   * The parser fails with the missing-tag error, listing every tag in
   * argument order, exactly when the input is not an object, lacks the tag
   * field, or its tag is no member's.
   */
  lemma ParseRejectsUnknownTags<E>(key: string, props: seq<Member<E>>, u: Value)
    requires HasTagField(key, props)
    ensures var known := u.Obj? && key in u.fields &&
                         exists i :: 0 <= i < |props| && TagOf(key, props[i]) == PropertyKey(u.fields[key]);
            && (!known ==> SchemaOf(key, props).Parse(u) == Failed(MissingTag(key, u, SchemaOf(key, props).tables.keys)))
            && (known ==> SchemaOf(key, props).Parse(u) != Failed(MissingTag(key, u, SchemaOf(key, props).tables.keys)))
    ensures |SchemaOf(key, props).tables.keys| == |props|
    ensures forall i :: 0 <= i < |props| ==> SchemaOf(key, props).tables.keys[i] == TagOf(key, props[i])
  {
    TableKeysInOrder(key, props);
    var schema := SchemaOf(key, props);
    if u.Obj? && key in u.fields {
      RegisteredIffCarried(key, props, PropertyKey(u.fields[key]));
    }
    match schema.Selected(u)
    case None =>
    case Some(t) =>
      assert schema.Parse(u).Failed? ==> schema.Parse(u).error.errors[0].NextE?;
  }

  /**
   * On a selected member the parser passes the member's value through
   * unchanged, and its error and warnings keyed by the tag value.
   */
  lemma ParseKeysMemberResults<E>(schema: TaggedSchema<E>, u: Value)
    requires schema.Selected(u).Some?
    ensures var m := schema.tables.members[PropertyKey(u.fields[schema.key])];
            var tag := u.fields[schema.key];
            && (m.parse(u).Failed? <==> schema.Parse(u).Failed?)
            && (m.parse(u).Failed? ==> schema.Parse(u).error == InNext(MemberError(m.parse(u).error, tag)))
            && (m.parse(u).Parsed? ==> schema.Parse(u).value == m.parse(u).value)
            && (m.parse(u).Parsed? ==> (m.parse(u).warnings.None? <==> schema.Parse(u).warnings.None?))
            && (m.parse(u).Parsed? && m.parse(u).warnings.Some? ==>
                  schema.Parse(u).warnings.value == InNext(MemberError(m.parse(u).warnings.value, tag)))
  {
  }

  /** The parser's view of a constructor result: errors put in the composition's `next` step. */
  function LiftConstruct<E>(r: These<ConstructError<E>, Value>): These<ParseError<E>, Value> {
    match r
    case Failed(e) => Failed(InNext(e))
    case Parsed(a, None) => Parsed(a, None)
    case Parsed(a, Some(w)) => Parsed(a, Some(InNext(w)))
  }

  /**
   * On a registered tag the parser and the constructor agree: the parser's
   * result is the constructor's, with the errors one composition deeper.
   */
  lemma ParseIsConstructInComposition<E>(schema: TaggedSchema<E>, u: Value)
    requires schema.Selected(u).Some?
    ensures schema.Parse(u) == LiftConstruct(schema.Construct(u))
  {
  }

  /** A member whose parser succeeds on exactly what its guard accepts. */
  ghost predicate Lawful<E>(m: Member<E>) {
    forall u :: m.parse(u).Parsed? <==> m.guard(u)
  }

  /** With lawful members the tagged parser succeeds on exactly what the tagged guard accepts. */
  lemma ParseSucceedsWhereGuardAccepts<E>(schema: TaggedSchema<E>, u: Value)
    requires forall t :: t in schema.tables.members ==> Lawful(schema.tables.members[t])
    ensures schema.Parse(u).Parsed? <==> schema.Guard(u)
  {
    match schema.Selected(u)
    case None =>
    case Some(t) =>
      assert Lawful(schema.tables.members[t]);
  }

  /**
   * Encoding then parsing gives the value back, without warnings, when the
   * selected member's encoding keeps the tag and its parser inverts it.
   */
  lemma EncodeThenParse<E>(schema: TaggedSchema<E>, a: Value)
    requires schema.Selected(a).Some?
    requires var m := schema.tables.members[schema.Selected(a).value];
             && m.encode(a).Obj? && schema.key in m.encode(a).fields
             && PropertyKey(m.encode(a).fields[schema.key]) == schema.Selected(a).value
             && m.parse(m.encode(a)) == Parsed(a, None)
    ensures schema.Parse(schema.Encode(a)) == Parsed(a, None)
  {
  }

  /** The encoder is the match whose handlers are the members' encoders. */
  lemma EncodeIsMatchOnEncoders<E>(schema: TaggedSchema<E>, a: Value)
    requires schema.Selected(a).Some?
    ensures var encoders := map t | t in schema.tables.members :: schema.tables.members[t].encode;
            schema.Encode(a) == schema.Match(encoders, a)
  {
  }

  /**
   * A member whose tag field is `tag(k)` is selected by a string `k` in the
   * tag field of an input, when no later member reuses `k`.
   */
  lemma TagFieldSelectsMember<E>(key: string, props: seq<Member<E>>, i: nat, k: string, u: Value)
    requires HasTagField(key, props) && i < |props|
    requires props[i].fields[key] == Tag(k)
    requires forall j :: i < j < |props| ==> TagOf(key, props[j]) != k
    requires u.Obj? && key in u.fields && u.fields[key] == Str(k)
    ensures SchemaOf(key, props).Selected(u) == Some(k)
    ensures SchemaOf(key, props).tables.members[k] == props[i]
  {
    TablesRegisterEveryMember(key, props);
    assert TablesOf(key, props).keys[i] == k;
  }

  /**
   * The guard and parser as written look the tag up in plain objects, so
   * a tag naming a method every object inherits finds that method: with
   * `toString` (the one modelled here) the guard gets back a non-empty
   * string, which counts as true, and the parser reads `effect` off that
   * string and throws. `None` stands for the thrown error.
   */
  function GuardAsWritten<E>(schema: TaggedSchema<E>, u: Value): bool {
    match schema.Selected(u)
    case Some(t) => schema.tables.members[t].guard(u)
    case None => u.Obj? && schema.key in u.fields && PropertyKey(u.fields[schema.key]) == "toString"
  }

  function ParseAsWritten<E>(schema: TaggedSchema<E>, u: Value): Option<These<ParseError<E>, Value>> {
    if schema.Selected(u).None? && u.Obj? && schema.key in u.fields && PropertyKey(u.fields[schema.key]) == "toString"
    then None
    else Some(schema.Parse(u))
  }

  /**
   * An input tagged `toString`, on a schema with no such member: the guard
   * as written accepts it and the parser as written throws, where the
   * lookup over the registered tags only rejects it with the missing-tag
   * error.
   */
  lemma InheritedTagSlipsThrough<E>(schema: TaggedSchema<E>)
    requires "toString" !in schema.tables.members
    ensures var u := Obj(map[schema.key := Str("toString")]);
            && GuardAsWritten(schema, u)
            && ParseAsWritten(schema, u).None?
            && !schema.Guard(u)
            && schema.Parse(u) == Failed(MissingTag(schema.key, u, schema.tables.keys))
  {
  }
}
