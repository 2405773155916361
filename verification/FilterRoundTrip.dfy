/**
 What the user writes is what the server filters by: conditions rendered as text, parsed by the client, sent as
 parameters and decoded by the server come back as the same fields, operators and values.
 */
module FilterRoundTrip {
  import opened Wrappers
  import opened Text
  import opened Filters

  // ---------------------------------------------------------------- conditions as written

  /** A host attribute, or an attribute of one of the tables. */
  datatype Field = Attribute(name: string) | TableField(table: string, name: string) {
    function Written(): string {
      if Attribute? then name else table + "." + name
    }

    /** As the server names it: the fields of a table in lower case. */
    function Restored(): string {
      if Attribute? then name else table + "." + Lower(name)
    }
  }

  /** The six operators, by their place in the operator list. */
  datatype Condition = Condition(field: Field, op: OpIndex, value: string)

  predicate NoDoubleUnderscore(s: string) {
    forall i :: 0 < i < |s| ==> !(s[i - 1] == '_' && s[i] == '_')
  }

  /** An attribute name: letters, digits and single underscores, not ending in one. */
  predicate IsName(s: string) {
    && s != []
    && (forall i :: 0 <= i < |s| ==> IsWordChar(s[i]))
    && NoDoubleUnderscore(s)
    && s[|s| - 1] != '_'
  }

  predicate IsOpChar(c: char) {
    c == '=' || c == '!' || c == '<' || c == '>'
  }

  /** A value without separators and operator characters. */
  predicate IsPlainValue(s: string) {
    forall i :: 0 <= i < |s| ==> s[i] != ',' && !IsOpChar(s[i])
  }

  predicate Writable(c: Condition) {
    && IsName(c.field.name)
    && (c.field.TableField? ==> c.field.table in TABLES)
    && (c.field.Attribute? ==> Lower(c.field.name) !in TABLES)
    && IsPlainValue(c.value)
  }

  function Render(c: Condition): string
  {
    c.field.Written() + Symbol(c.op) + c.value
  }

  function ParameterName(c: Condition): string
  {
    c.field.Written() + Suffix(c.op)
  }

  // ---------------------------------------------------------------- finding the operator

  /** In "left op right" with operator characters in op only, a pattern of them occurs where it does in op. */
  lemma OccursInOp(left: string, op: string, right: string, p: string, i: nat)
    requires forall k :: 0 <= k < |left| ==> !IsOpChar(left[k])
    requires forall k :: 0 <= k < |right| ==> !IsOpChar(right[k])
    requires p != [] && forall k :: 0 <= k < |p| ==> IsOpChar(p[k])
    requires OccursAt(left + op + right, p, i)
    ensures |left| <= i && OccursAt(op, p, i - |left|)
  {
    var s := left + op + right;
    assert forall k :: 0 <= k < |p| ==> s[i + k] == p[k];
    assert s[i] == p[0] && s[i + |p| - 1] == p[|p| - 1];
    assert s[i..i + |p|] == op[i - |left|..i - |left| + |p|];
  }

  lemma OccursInside(left: string, op: string, right: string, p: string, i: nat)
    requires OccursAt(op, p, i)
    ensures OccursAt(left + op + right, p, |left| + i)
  {
    var s := left + op + right;
    assert s[|left|..|left| + |op|] == op;
    assert s[|left| + i..|left| + i + |p|] == s[|left|..|left| + |op|][i..i + |p|];
  }

  lemma ContainsInOp(left: string, op: string, right: string, p: string)
    requires forall k :: 0 <= k < |left| ==> !IsOpChar(left[k])
    requires forall k :: 0 <= k < |right| ==> !IsOpChar(right[k])
    requires p != [] && forall k :: 0 <= k < |p| ==> IsOpChar(p[k])
    ensures Contains(left + op + right, p) <==> Contains(op, p)
  {
    var s := left + op + right;
    if Contains(s, p) {
      OccursInOp(left, op, right, p, Find(s, p).value);
    }
    if Contains(op, p) {
      OccursInside(left, op, right, p, Find(op, p).value);
    }
  }

  /** The operator that is found first: for the two-character comparisons their first character. */
  function FoundOp(op: OpIndex): OpIndex {
    if op == 3 then 2 else if op == 5 then 4 else op
  }

  lemma OneCharContains(op: string, p: string)
    requires |p| == 1
    ensures Contains(op, p) <==> p[0] in op
  {
    if p[0] in op {
      var i :| 0 <= i < |op| && op[i] == p[0];
      assert OccursAt(op, p, i);
    }
    if Contains(op, p) {
      var i := Find(op, p).value;
      assert op[i..i + 1][0] == p[0];
    }
  }

  lemma TwoCharContains(op: string, p: string)
    requires |p| == 2 && |op| <= 2
    ensures Contains(op, p) <==> op == p
  {
    if op == p {
      assert OccursAt(op, p, 0);
    }
    if Contains(op, p) {
      assert Find(op, p).value == 0;
    }
  }

  lemma OpsContain(op: OpIndex, j: OpIndex)
    ensures j < FoundOp(op) ==> !Contains(Symbol(op), Symbol(j))
    ensures j == FoundOp(op) ==> Contains(Symbol(op), Symbol(j))
  {
    if |Symbol(j)| == 1 {
      OneCharContains(Symbol(op), Symbol(j));
    } else {
      TwoCharContains(Symbol(op), Symbol(j));
    }
  }

  lemma {:induction false} FirstOpFrom(left: string, op: OpIndex, right: string, from: OpIndex)
    requires from <= FoundOp(op)
    requires forall k :: 0 <= k < |left| ==> !IsOpChar(left[k])
    requires forall k :: 0 <= k < |right| ==> !IsOpChar(right[k])
    ensures FirstOp(left + Symbol(op) + right, from) == Some(FoundOp(op))
    decreases FoundOp(op) - from
  {
    OpsAreOpChars(from);
    ContainsInOp(left, Symbol(op), right, Symbol(from));
    OpsContain(op, from);
    if from < FoundOp(op) {
      FirstOpFrom(left, op, right, from + 1);
    }
  }

  lemma OpsAreOpChars(j: OpIndex)
    ensures 1 <= |Symbol(j)| <= 2 && forall k :: 0 <= k < |Symbol(j)| ==> IsOpChar(Symbol(j)[k])
  {
  }

  // ---------------------------------------------------------------- what the client sends

  /** A text splits at a pattern whose first character occurs neither before nor after it. */
  lemma SplitAtPattern(left: string, p: string, right: string)
    requires p != [] && forall k :: 0 <= k < |left| ==> left[k] != p[0]
    requires forall k :: 0 <= k < |right| ==> right[k] != p[0]
    ensures Split(left + p + right, p) == [left, right]
  {
    forall i | 0 <= i < |left|
      ensures !OccursAt(left + p + right, p, i)
    {
      NotOccurs(left + p + right, p, i, 0);
    }
    forall i | 0 <= i <= |right|
      ensures !OccursAt(right, p, i)
    {
      NotOccurs(right, p, i, 0);
    }
    SplitOnce(left, p, right);
  }

  /** What the found operator leaves of the written one: "=" of "<=" and ">=". */
  function LeftOver(op: OpIndex): string {
    if op == 3 || op == 5 then "=" else ""
  }

  lemma FoundOpShape(op: OpIndex)
    ensures var p := Symbol(FoundOp(op));
            && Symbol(op) == p + LeftOver(op) && p != [] && IsOpChar(p[0])
            && (LeftOver(op) == "=" ==> p[0] != '=')
  {
  }

  /** The condition's text splits at the operator that is found. */
  lemma SplitAtOp(left: string, op: OpIndex, right: string)
    requires forall k :: 0 <= k < |left| ==> !IsOpChar(left[k])
    requires forall k :: 0 <= k < |right| ==> !IsOpChar(right[k])
    ensures Split(left + Symbol(op) + right, Symbol(FoundOp(op))) == [left, LeftOver(op) + right]
  {
    var p := Symbol(FoundOp(op));
    FoundOpShape(op);
    assert left + Symbol(op) + right == left + p + (LeftOver(op) + right);
    SplitAtPattern(left, p, LeftOver(op) + right);
  }

  lemma NameHasNoOp(c: Condition)
    requires Writable(c)
    ensures forall k :: 0 <= k < |c.field.Written()| ==> !IsOpChar(c.field.Written()[k]) && c.field.Written()[k] != ','
  {
    if c.field.TableField? {
      TableChars(c.field.table);
    }
  }

  lemma TableChars(table: string)
    requires table in TABLES
    ensures table != [] && Lower(table) == table && forall k :: 0 <= k < |table| ==> 'a' <= table[k] <= 'z'
  {
  }

  lemma ParsesItsParts(models: seq<string>, c: Condition)
    requires Writable(c)
    ensures ParseCondition(models, Render(c))
            == BuildParameter(models, Split(c.field.Written(), "."), Suffix(c.op), ParseValue(c.value))
  {
    NameHasNoOp(c);
    FirstOpFrom(c.field.Written(), c.op, c.value, 0);
    SplitAtOp(c.field.Written(), c.op, c.value);
    LongSuffix(c.op);
    var rest := LeftOver(c.op) + c.value;
    if c.op == 3 || c.op == 5 {
      assert rest[1..] == c.value;
    } else {
      assert rest == c.value;
    }
  }

  lemma LongSuffix(op: OpIndex)
    ensures op == 3 || op == 5 ==> SuffixOf(Symbol(FoundOp(op)) + "=") == Suffix(op)
  {
    if op == 3 {
      assert Symbol(2) + "=" == Symbol(3);
      assert SuffixFrom("<=", 3) == "__lte";
      assert SuffixFrom("<=", 2) == "__lte";
      assert SuffixFrom("<=", 1) == "__lte";
    } else if op == 5 {
      assert Symbol(4) + "=" == Symbol(5);
      assert SuffixFrom(">=", 5) == "__gte";
      assert SuffixFrom(">=", 4) == "__gte";
      assert SuffixFrom(">=", 3) == "__gte";
      assert SuffixFrom(">=", 2) == "__gte";
      assert SuffixFrom(">=", 1) == "__gte";
    }
  }

  /** The value a condition carries: as parsed, text in upper case except for the boot mode and table fields. */
  function SentValue(c: Condition): Value {
    var value := ParseValue(c.value);
    if c.field.Attribute? && value.StrValue? && Lower(c.field.name) != "bootmode" then StrValue(Upper(value.s))
    else value
  }

  /** A model condition names an accepted model. */
  predicate ModelAccepted(models: seq<string>, c: Condition) {
    c.field.Attribute? && Lower(c.field.name) == "model" ==> Upper(ValueText(ParseValue(c.value))) in models
  }

  lemma NoDot(s: string)
    requires '.' !in s
    ensures Split(s, ".") == [s] && !Contains(s, ".")
  {
    forall i | 0 <= i <= |s|
      ensures !OccursAt(s, ".", i)
    {
      NotOccurs(s, ".", i, 0);
    }
    SplitNone(s, ".");
  }

  lemma SplitAtDot(left: string, right: string)
    requires '.' !in left && '.' !in right
    ensures Split(left + "." + right, ".") == [left, right] && Contains(left + "." + right, ".")
  {
    SplitAtPattern(left, ".", right);
    assert (left + "." + right)[|left|..|left| + 1] == ".";
    assert OccursAt(left + "." + right, ".", |left|);
  }

  lemma SuffixShape(op: OpIndex)
    ensures '.' !in Suffix(op)
    ensures op == 0 ==> Suffix(op) == ""
    ensures op != 0 ==>
              && |Suffix(op)| >= 4 && Suffix(op)[0] == '_' && Suffix(op)[1] == '_'
              && (forall k :: 2 <= k < |Suffix(op)| ==> 'a' <= Suffix(op)[k] <= 'z')
              && Suffix(op) in OPERATORS && OPERATORS[Suffix(op)] == Symbol(op)
  {
  }

  lemma WrittenIsStripped(c: Condition)
    requires Writable(c)
    ensures Strip(ParameterName(c)) == ParameterName(c)
  {
    SuffixShape(c.op);
    if c.field.TableField? {
      TableChars(c.field.table);
    }
    StripKeeps(ParameterName(c));
  }

  /** Client half: the condition is sent under its parameter name with its value. */
  lemma ConditionIsSent(models: seq<string>, c: Condition)
    requires Writable(c) && ModelAccepted(models, c)
    ensures ParseCondition(models, Render(c))
            == Success(Parameter(ParameterName(c), SentValue(c), c.field.TableField?))
  {
    ParsesItsParts(models, c);
    WrittenIsStripped(c);
    var name := c.field.name;
    if c.field.Attribute? {
      NoDot(name);
      StripKeeps(name);
    } else {
      TableChars(c.field.table);
      SplitAtDot(c.field.table, name);
      StripKeeps(c.field.table);
      assert [c.field.table, name][1..] == [name];
    }
  }

  // ---------------------------------------------------------------- what the server decodes

  /** In a name followed by a suffix, a double underscore cannot start inside the name. */
  lemma UnderscoresAfter(w: string, tail: string, i: nat)
    requires NoDoubleUnderscore(w) && w != [] && w[|w| - 1] != '_' && i < |w|
    ensures !OccursAt(w + tail, "__", i)
  {
    if w[i] != '_' {
      NotOccurs(w + tail, "__", i, 0);
    } else {
      assert i + 1 < |w|;
      NotOccurs(w + tail, "__", i, 1);
    }
  }

  lemma WrittenShape(c: Condition)
    requires Writable(c)
    ensures var w := c.field.Written(); NoDoubleUnderscore(w) && w != [] && w[|w| - 1] != '_'
  {
    if c.field.TableField? {
      TableChars(c.field.table);
    }
  }

  lemma NoLateUnderscores(tail: string)
    requires forall k :: 0 <= k < |tail| ==> tail[k] != '_'
    ensures forall i :: 0 <= i <= |tail| ==> !OccursAt(tail, "__", i)
  {
    forall i | 0 <= i <= |tail|
      ensures !OccursAt(tail, "__", i)
    {
      NotOccurs(tail, "__", i, 0);
    }
  }

  /** The operator suffix of a parameter name is recovered, and where it starts. */
  lemma SuffixRecovered(w: string, op: OpIndex)
    requires NoDoubleUnderscore(w) && w != [] && w[|w| - 1] != '_'
    ensures op == 0 ==> !Contains(w + Suffix(op), "__")
    ensures op != 0 ==>
              && Contains(w + Suffix(op), "__")
              && OpSuffix(w + Suffix(op)) == Suffix(op)
              && Find(w + Suffix(op), Suffix(op)) == Some(|w|)
  {
    var suffix := Suffix(op);
    SuffixShape(op);
    forall i | 0 <= i < |w|
      ensures !OccursAt(w + suffix, "__", i)
    {
      UnderscoresAfter(w, suffix, i);
    }
    if op != 0 {
      var s, tail := w + suffix, suffix[2..];
      assert suffix == "__" + tail;
      assert s == w + "__" + tail;
      NoLateUnderscores(tail);
      SplitOnce(w, "__", tail);
      assert s[|w|..|w| + 2] == "__";
      assert OccursAt(s, "__", |w|);
      SuffixFound(w, suffix);
    } else {
      assert w + suffix == w;
    }
  }

  lemma NotDoubleAt(s: string, i: nat)
    requires i + 2 <= |s| && !OccursAt(s, "__", i)
    ensures s[i] != '_' || s[i + 1] != '_'
  {
    assert s[i..i + 2] == [s[i], s[i + 1]];
  }

  lemma SuffixFound(w: string, suffix: string)
    requires |suffix| >= 2 && suffix[0] == '_' && suffix[1] == '_'
    requires forall i :: 0 <= i < |w| ==> !OccursAt(w + suffix, "__", i)
    ensures Find(w + suffix, suffix) == Some(|w|)
  {
    var s := w + suffix;
    assert s[|w|..|w| + |suffix|] == suffix;
    forall i | 0 <= i < |w|
      ensures !OccursAt(s, suffix, i)
    {
      NotDoubleAt(s, i);
      NotOccurs(s, suffix, i, if s[i] != '_' then 0 else 1);
    }
    FindIs(s, suffix, |w|);
  }

  /** The attribute a field is looked up by. */
  function LookedUp(field: Field): string {
    if field.Attribute? then field.name else field.table
  }

  lemma AttributeKeyIsDecoded(c: Condition)
    requires Writable(c) && c.field.Attribute?
    ensures DecodeKey(ParameterName(c)) == Success((c.field.name, c.field.name, Symbol(c.op)))
  {
    var name, k := c.field.name, ParameterName(c);
    SuffixShape(c.op);
    SuffixRecovered(name, c.op);
    NoDot(k);
    assert k[..|name|] == name;
    if c.op == 0 {
      assert k == name;
    }
  }

  /** The operator a parameter name carries. */
  lemma KeyOperator(c: Condition)
    requires Writable(c)
    ensures Contains(ParameterName(c), "__") <==> c.op != 0
    ensures c.op != 0 ==>
              var suffix := OpSuffix(ParameterName(c));
              suffix == Suffix(c.op) && suffix in OPERATORS && OPERATORS[suffix] == Symbol(c.op)
  {
    WrittenShape(c);
    SuffixRecovered(c.field.Written(), c.op);
    SuffixShape(c.op);
  }

  lemma TableKeyParts(c: Condition)
    requires Writable(c) && c.field.TableField?
    ensures var last := c.field.name + Suffix(c.op);
            && Split(ParameterName(c), ".") == [c.field.table, last]
            && last[..|c.field.name|] == c.field.name
            && (c.op == 0 ==> last == c.field.name)
            && (c.op != 0 ==> Find(last, Suffix(c.op)) == Some(|c.field.name|) && c.field.table != last)
  {
    var last := c.field.name + Suffix(c.op);
    SuffixShape(c.op);
    SuffixRecovered(c.field.name, c.op);
    TableChars(c.field.table);
    assert ParameterName(c) == c.field.table + "." + last;
    SplitAtDot(c.field.table, last);
    if c.op != 0 {
      assert last[|c.field.name|] == '_';
    }
  }

  lemma TableKeyIsDecoded(c: Condition)
    requires Writable(c) && c.field.TableField?
    ensures DecodeKey(ParameterName(c)) == Success((c.field.table, c.field.name, Symbol(c.op)))
  {
    KeyOperator(c);
    TableKeyParts(c);
  }

  /** Server half: a parameter name decodes to exactly the field and operator it was made from. */
  lemma KeyIsDecoded(c: Condition)
    requires Writable(c)
    ensures DecodeKey(ParameterName(c)) == Success((LookedUp(c.field), c.field.name, Symbol(c.op)))
  {
    if c.field.Attribute? {
      AttributeKeyIsDecoded(c);
    } else {
      TableKeyIsDecoded(c);
    }
  }

  /** The schema knows the condition's field as what it is written as. */
  predicate Known(schema: Schema, c: Condition) {
    && LookedUp(c.field) in schema.attributes
    && (schema.attributes[LookedUp(c.field)].Table? <==> c.field.TableField?)
    && (schema.attributes[LookedUp(c.field)].CloudLink? ==> Lower(ValueText(SentValue(c))) in schema.clouds)
  }

  /** The value the server compares with, by the kind of the column. */
  function ReceivedValue(schema: Schema, c: Condition): Received
    requires LookedUp(c.field) in schema.attributes
  {
    var text := ValueText(SentValue(c));
    match schema.attributes[LookedUp(c.field)]
    case BooleanColumn => Flag(Lower(text) in ["true", "y", "yes"])
    case CloudLink => Whole(Lower(text))
    case _ => AsReceived(text)
  }

  function Meant(schema: Schema, c: Condition): HostFilter
    requires LookedUp(c.field) in schema.attributes
  {
    HostFilter(c.field.Restored(), Symbol(c.op), ReceivedValue(schema, c))
  }

  lemma OpIsNotIn(op: OpIndex)
    ensures Symbol(op) != "in"
  {
  }

  lemma FieldIsRestored(c: Condition)
    requires Writable(c)
    ensures c.field.Attribute? ==> !Contains(ParameterName(c), ".")
    ensures c.field.TableField? ==>
              Contains(ParameterName(c), ".")
              && Lower(c.field.table) + "." + Lower(c.field.name) == c.field.Restored()
  {
    SuffixShape(c.op);
    if c.field.Attribute? {
      NoDot(ParameterName(c));
    } else {
      TableChars(c.field.table);
      assert ParameterName(c) == c.field.table + "." + (c.field.name + Suffix(c.op));
      SplitAtDot(c.field.table, c.field.name + Suffix(c.op));
    }
  }

  lemma ParameterIsDecoded(schema: Schema, c: Condition)
    requires Writable(c) && Known(schema, c)
    ensures DecodeParameter(schema, ParameterName(c), ValueText(SentValue(c))) == Success(Meant(schema, c))
  {
    KeyIsDecoded(c);
    OpIsNotIn(c.op);
    FieldIsRestored(c);
  }

  // ---------------------------------------------------------------- whole filters

  predicate Acceptable(models: seq<string>, schema: Schema, conditions: seq<Condition>) {
    forall i :: 0 <= i < |conditions| ==>
      Writable(conditions[i]) && ModelAccepted(models, conditions[i]) && Known(schema, conditions[i])
  }

  /** No field occurs twice with the same operator. */
  predicate DistinctKeys(conditions: seq<Condition>) {
    forall i, j :: 0 <= i < j < |conditions| ==>
      conditions[i].field != conditions[j].field || conditions[i].op != conditions[j].op
  }

  function Rendered(conditions: seq<Condition>): (r: seq<string>)
    ensures |r| == |conditions| && forall i :: 0 <= i < |r| ==> r[i] == Render(conditions[i])
  {
    seq(|conditions|, i requires 0 <= i < |conditions| => Render(conditions[i]))
  }

  /** Different conditions have different parameter names: the name decodes to field and operator. */
  lemma ParameterNamesDiffer(c: Condition, d: Condition)
    requires Writable(c) && Writable(d) && ParameterName(c) == ParameterName(d)
    ensures c.field == d.field && c.op == d.op
  {
    KeyIsDecoded(c);
    KeyIsDecoded(d);
    OpsDiffer(c.op, d.op);
    if c.field.TableField? {
      TableChars(c.field.table);
    }
    if d.field.TableField? {
      TableChars(d.field.table);
    }
  }

  lemma OpsDiffer(i: OpIndex, j: OpIndex)
    ensures Symbol(i) == Symbol(j) <==> i == j
  {
  }

  function Pairs(parsed: seq<Parameter>): (r: Kwargs)
    ensures |r| == |parsed|
  {
    seq(|parsed|, i requires 0 <= i < |parsed| => (parsed[i].key, parsed[i].value))
  }

  /** Parameters with new, different keys are all added, in order. */
  lemma {:induction false} AllPut(parsed: seq<Result<Parameter, ClientError>>, params: seq<Parameter>, kwargs: Kwargs)
    requires |parsed| == |params| && forall i :: 0 <= i < |parsed| ==> parsed[i] == Success(params[i])
    requires forall i, j :: 0 <= i < j < |params| ==> params[i].key != params[j].key
    requires forall i, j :: 0 <= i < |kwargs| && 0 <= j < |params| ==> kwargs[i].0 != params[j].key
    ensures PutAll(parsed, kwargs) == Success(kwargs + Pairs(params))
    decreases |parsed|
  {
    if parsed == [] {
      assert kwargs + Pairs(params) == kwargs;
    } else {
      var more := kwargs + [(params[0].key, params[0].value)];
      assert Put(kwargs, params[0]) == Success(more);
      AllPut(parsed[1..], params[1..], more);
      assert more + Pairs(params[1..]) == kwargs + Pairs(params);
    }
  }

  /** The parameter a condition is sent as. */
  function SentAs(c: Condition): Parameter {
    Parameter(ParameterName(c), SentValue(c), c.field.TableField?)
  }

  function AllSentAs(conditions: seq<Condition>): (r: seq<Parameter>)
    ensures |r| == |conditions|
  {
    seq(|conditions|, i requires 0 <= i < |conditions| => SentAs(conditions[i]))
  }

  lemma KeysDiffer(conditions: seq<Condition>, i: nat, j: nat)
    requires i < j < |conditions| && DistinctKeys(conditions) && Writable(conditions[i]) && Writable(conditions[j])
    ensures AllSentAs(conditions)[i].key != AllSentAs(conditions)[j].key
  {
    if ParameterName(conditions[i]) == ParameterName(conditions[j]) {
      ParameterNamesDiffer(conditions[i], conditions[j]);
    }
  }

  lemma EachParses(models: seq<string>, schema: Schema, conditions: seq<Condition>, i: nat)
    requires i < |conditions| && Acceptable(models, schema, conditions)
    ensures ParseEach(models, Rendered(conditions))[i] == Success(AllSentAs(conditions)[i])
  {
    ConditionIsSent(models, conditions[i]);
  }

  lemma AllAreSent(models: seq<string>, schema: Schema, conditions: seq<Condition>)
    requires Acceptable(models, schema, conditions) && DistinctKeys(conditions)
    ensures ParseAll(models, Rendered(conditions)) == Success(Pairs(AllSentAs(conditions)))
  {
    var parsed, params := ParseEach(models, Rendered(conditions)), AllSentAs(conditions);
    forall i | 0 <= i < |conditions|
      ensures parsed[i] == Success(params[i])
    {
      EachParses(models, schema, conditions, i);
    }
    forall i, j | 0 <= i < j < |conditions|
      ensures params[i].key != params[j].key
    {
      KeysDiffer(conditions, i, j);
    }
    AllPut(parsed, params, []);
    assert [] + Pairs(params) == Pairs(params);
  }

  function AllMeant(schema: Schema, conditions: seq<Condition>): seq<HostFilter>
    requires forall i :: 0 <= i < |conditions| ==> Known(schema, conditions[i])
  {
    seq(|conditions|, i requires 0 <= i < |conditions| =>
      assert Known(schema, conditions[i]);
      Meant(schema, conditions[i]))
  }

  lemma {:induction false} AllDecoded(schema: Schema, data: seq<(string, string)>, filters: seq<HostFilter>)
    requires |data| == |filters|
    requires forall i :: 0 <= i < |data| ==> DecodeParameter(schema, data[i].0, data[i].1) == Success(filters[i])
    ensures DecodeAll(schema, data) == Success(filters)
  {
    if data != [] {
      AllDecoded(schema, data[1..], filters[1..]);
      assert filters == [filters[0]] + filters[1..];
    }
  }

  lemma AllAreDecoded(schema: Schema, conditions: seq<Condition>)
    requires forall i :: 0 <= i < |conditions| ==> Writable(conditions[i]) && Known(schema, conditions[i])
    ensures DecodeAll(schema, Sent(Pairs(AllSentAs(conditions)))) == Success(AllMeant(schema, conditions))
  {
    forall i | 0 <= i < |conditions|
      ensures var c := conditions[i];
              DecodeParameter(schema, ParameterName(c), ValueText(SentValue(c))) == Success(Meant(schema, c))
    {
      ParameterIsDecoded(schema, conditions[i]);
    }
    AllDecoded(schema, Sent(Pairs(AllSentAs(conditions))), AllMeant(schema, conditions));
  }

  lemma RenderedHasNoComma(c: Condition)
    requires Writable(c)
    ensures ',' !in Render(c)
  {
    NameHasNoOp(c);
    OpsAreOpChars(c.op);
  }

  /**
   Main result: a comma-joined list of conditions with distinct field and operator pairs parses on the client, and
   what it sends decodes on the server to the same fields and operators, with the meant values, in order.
   */
  lemma FilterRoundTrips(models: seq<string>, schema: Schema, conditions: seq<Condition>)
    requires conditions != [] && Acceptable(models, schema, conditions) && DistinctKeys(conditions)
    ensures var parsed := ParseAll(models, Split(Join(Rendered(conditions), ","), ","));
            parsed.Success? && DecodeAll(schema, Sent(parsed.value)) == Success(AllMeant(schema, conditions))
  {
    forall i | 0 <= i < |conditions|
      ensures ',' !in Rendered(conditions)[i]
    {
      RenderedHasNoComma(conditions[i]);
    }
    assert "," == [','];
    SplitJoin(Rendered(conditions), ',');
    AllAreSent(models, schema, conditions);
    AllAreDecoded(schema, conditions);
  }

  // ---------------------------------------------------------------- values

  /** Text that is no number and no special word arrives in upper case, and unchanged for boot modes and tables. */
  lemma TextValues(c: Condition)
    requires ParseInt(c.value).None? && Lower(c.value) !in ["true", "false", "none"]
    ensures ValueText(SentValue(c))
            == if c.field.TableField? || Lower(c.field.name) == "bootmode" then c.value else Upper(c.value)
  {
  }

  lemma {:induction false} DigitsKeep(s: string)
    requires forall i :: 0 <= i < |s| ==> IsDigit(s[i])
    ensures WithoutUnderscores(s) == s
  {
    if s != [] {
      DigitsKeep(s[1..]);
    }
  }

  lemma DigitsParse(s: string)
    requires s != [] && forall i :: 0 <= i < |s| ==> IsDigit(s[i])
    ensures ParseInt(s) == Some(DecimalValue(s))
  {
    assert IsDigit(s[0]) && IsDigit(s[|s| - 1]);
    StripKeeps(s);
    DigitsKeep(s);
  }

  /** Whole numbers arrive as they were written. */
  lemma NumberValues(c: Condition, n: nat)
    requires c.value == Decimal(n)
    ensures SentValue(c) == IntValue(n) && ValueText(SentValue(c)) == c.value
  {
    DigitsParse(c.value);
    DecimalRoundTrip(n);
  }

  /**
   The word "none" is meant as SQL null, which the query layer knows as the text "null": it arrives so for table
   fields and boot modes only; for every other attribute it is upper-cased on the way.
   */
  lemma NoneArrivesAsNull(c: Condition)
    requires ParseInt(c.value).None? && Lower(c.value) == "none"
    ensures ValueText(SentValue(c)) == "null" <==> c.field.TableField? || Lower(c.field.name) == "bootmode"
  {
    assert Upper("null")[0] == 'N';
  }

  // ---------------------------------------------------------------- the other two decoders

  /** Cloud and assignment filters: the operator variable is not reset, so it carries over to the next parameter. */
  function StickyOperators(keys: seq<string>, operator: string): seq<string> {
    if keys == [] then []
    else
      var known := Contains(keys[0], "__") && OpSuffix(keys[0]) in OPERATORS;
      var op := if known then OPERATORS[OpSuffix(keys[0])] else operator;
      [op] + StickyOperators(keys[1..], op)
  }

  function Keys(conditions: seq<Condition>): seq<string>
  {
    seq(|conditions|, i requires 0 <= i < |conditions| => ParameterName(conditions[i]))
  }

  function Operators(conditions: seq<Condition>): seq<string>
  {
    seq(|conditions|, i requires 0 <= i < |conditions| => Symbol(conditions[i].op))
  }

  /** Equalities come before all other comparisons: whatever precedes an equality is one. */
  predicate EqualitiesFirst(conditions: seq<Condition>) {
    forall j :: 0 < j < |conditions| && conditions[j].op == 0 ==> conditions[j - 1].op == 0
  }

  /**
   With the operator carried over, the operators meant are the operators used exactly when every equality comes
   before every other comparison.
   */
  lemma {:induction false} StickyOperatorsAgree(conditions: seq<Condition>, before: OpIndex)
    requires forall i :: 0 <= i < |conditions| ==> Writable(conditions[i])
    ensures StickyOperators(Keys(conditions), Symbol(before)) == Operators(conditions)
            <==> EqualitiesFirst(conditions) && (before == 0 || conditions == [] || conditions[0].op != 0)
    decreases |conditions|
  {
    if conditions != [] {
      var c, rest := conditions[0], conditions[1..];
      var op := if c.op == 0 then before else c.op;
      StickyHead(conditions, before);
      StickyOperatorsAgree(rest, op);
      OpsDiffer(op, c.op);
      SameListsSameParts(Symbol(op), StickyOperators(Keys(rest), Symbol(op)), Symbol(c.op), Operators(rest));
      EqualitiesFirstSplit(conditions);
    }
  }

  /** Owner not x, and active: the second condition is read as the first one's comparison. */
  lemma StickyOperatorMisread()
    ensures var conditions := [Condition(Attribute("owner"), 1, "x"), Condition(Attribute("active"), 0, "true")];
            && (forall i :: 0 <= i < |conditions| ==> Writable(conditions[i]))
            && Operators(conditions) == ["!=", "=="] && StickyOperators(Keys(conditions), "==") == ["!=", "!="]
  {
    var conditions := [Condition(Attribute("owner"), 1, "x"), Condition(Attribute("active"), 0, "true")];
    OwnerAndActiveAreWritable();
    var rest := conditions[1..];
    assert rest == [conditions[1]] && rest[1..] == [];
    StickyHead(conditions, 0);
    StickyHead(rest, 1);
    assert StickyOperators(Keys(rest[1..]), Symbol(1)) == [] == Operators(rest[1..]);
  }

  lemma OwnerAndActiveAreWritable()
    ensures Writable(Condition(Attribute("owner"), 1, "x")) && Writable(Condition(Attribute("active"), 0, "true"))
  {
    assert Lower("owner")[0] == 'o' && Lower("active")[0] == 'a';
    assert IsName("owner") && IsName("active");
  }

  lemma StickyHead(conditions: seq<Condition>, before: OpIndex)
    requires conditions != []
    requires forall i :: 0 <= i < |conditions| ==> Writable(conditions[i])
    ensures var c, rest := conditions[0], conditions[1..];
            var op := if c.op == 0 then before else c.op;
            && Operators(conditions) == [Symbol(c.op)] + Operators(rest)
            && StickyOperators(Keys(conditions), Symbol(before))
               == [Symbol(op)] + StickyOperators(Keys(rest), Symbol(op))
  {
    var c, rest := conditions[0], conditions[1..];
    KeyOperator(c);
    assert Keys(conditions)[0] == ParameterName(c) && Keys(conditions)[1..] == Keys(rest);
  }

  lemma SameListsSameParts(a: string, x: seq<string>, b: string, y: seq<string>)
    ensures [a] + x == [b] + y <==> a == b && x == y
  {
    if [a] + x == [b] + y {
      assert ([a] + x)[0] == a && ([b] + y)[0] == b;
      assert ([a] + x)[1..] == x && ([b] + y)[1..] == y;
    }
  }

  lemma EqualitiesFirstSplit(conditions: seq<Condition>)
    requires conditions != []
    ensures EqualitiesFirst(conditions) <==>
            EqualitiesFirst(conditions[1..])
            && (conditions[0].op != 0 && |conditions| > 1 ==> conditions[1].op != 0)
  {
    var rest := conditions[1..];
    assert forall i :: 0 <= i < |rest| ==> rest[i] == conditions[i + 1];
    if EqualitiesFirst(rest) && (conditions[0].op != 0 && |conditions| > 1 ==> conditions[1].op != 0) {
      forall j | 0 < j < |conditions| && conditions[j].op == 0
        ensures conditions[j - 1].op == 0
      {
        assert rest[j - 1].op == 0;
      }
    }
    if EqualitiesFirst(conditions) {
      forall j | 0 < j < |rest| && rest[j].op == 0
        ensures rest[j - 1].op == 0
      {
        assert conditions[j + 1].op == 0;
      }
    }
  }
}
