/**
 Host filters: the command line's parser of "field operator value" conditions, the query parameters it sends, and
 the server's decoder that turns each parameter back into a field, an operator and a value.
 */
module Filters {
  import opened Wrappers
  import opened Text

  // ---------------------------------------------------------------- the client's parser

  datatype Value = IntValue(n: int) | BoolValue(b: bool) | StrValue(s: string)

  datatype ClientError = NoOperator | TooManyParts | UnknownModel | RepeatedTableField

  const OP_COUNT: nat := 6

  type OpIndex = i: nat | i < OP_COUNT

  /** Operators in the order they are looked for. */
  function Symbol(i: OpIndex): string {
    if i == 0 then "==" else if i == 1 then "!=" else if i == 2 then "<" else if i == 3 then "<="
    else if i == 4 then ">" else ">="
  }

  /** The suffixes of parameter names that stand for them. */
  function Suffix(i: OpIndex): string {
    if i == 0 then "" else if i == 1 then "__ne" else if i == 2 then "__lt" else if i == 3 then "__lte"
    else if i == 4 then "__gt" else "__gte"
  }

  const TABLES: seq<string> := ["disks", "interfaces", "processors", "memory"]

  /** The first listed operator from a position on that the condition contains. */
  function FirstOp(condition: string, from: nat): (r: Option<nat>)
    requires from <= OP_COUNT
    ensures r.Some? ==> from <= r.value < OP_COUNT
    decreases OP_COUNT - from
  {
    if from == OP_COUNT then None
    else if Contains(condition, Symbol(from)) then Some(from)
    else FirstOp(condition, from + 1)
  }

  /** The suffix of an operator; a spelling that is not an operator contributes the word None. */
  function SuffixOf(op: string): string {
    SuffixFrom(op, 0)
  }

  function SuffixFrom(op: string, from: nat): string
    requires from <= OP_COUNT
    decreases OP_COUNT - from
  {
    if from == OP_COUNT then "None"
    else if Symbol(from) == op then Suffix(from)
    else SuffixFrom(op, from + 1)
  }

  /** Digits with single underscores between them. */
  predicate IsNumeral(s: string) {
    && s != [] && IsDigit(s[0]) && IsDigit(s[|s| - 1])
    && (forall i :: 0 <= i < |s| ==> IsDigit(s[i]) || s[i] == '_')
    && (forall i :: 0 < i < |s| && s[i] == '_' ==> s[i - 1] != '_')
  }

  function WithoutUnderscores(s: string): (r: string)
    requires forall i :: 0 <= i < |s| ==> IsDigit(s[i]) || s[i] == '_'
    ensures forall i :: 0 <= i < |r| ==> IsDigit(r[i])
  {
    if s == [] then []
    else if s[0] == '_' then WithoutUnderscores(s[1..])
    else [s[0]] + WithoutUnderscores(s[1..])
  }

  /** A whole number as int() reads it: surrounding white space, a sign, a numeral. */
  function ParseInt(v: string): Option<int> {
    var s := Strip(v);
    var signed := s != [] && (s[0] == '-' || s[0] == '+');
    var body := if signed then s[1..] else s;
    if !IsNumeral(body) then None
    else
      var n: int := DecimalValue(WithoutUnderscores(body));
      Some(if s[0] == '-' then -n else n)
  }

  function ParseValue(v: string): Value {
    match ParseInt(v)
    case Some(n) => IntValue(n)
    case None =>
      if Lower(v) == "false" then BoolValue(false)
      else if Lower(v) == "true" then BoolValue(true)
      else if Lower(v) == "none" then StrValue("null")
      else StrValue(v)
  }

  /** A value as text, as it is sent. */
  function ValueText(value: Value): string {
    match value
    case IntValue(n) => if n < 0 then "-" + Decimal(-n) else Decimal(n)
    case BoolValue(b) => if b then "True" else "False"
    case StrValue(s) => s
  }

  predicate Truthy(value: Value) {
    match value
    case IntValue(n) => n != 0
    case BoolValue(b) => b
    case StrValue(s) => s != []
  }

  /** A parsed condition: the parameter's name and value, and whether it is about one of the tables. */
  datatype Parameter = Parameter(key: string, value: Value, table: bool)

  function ParseCondition(models: seq<string>, condition: string): Result<Parameter, ClientError> {
    var at := FirstOp(condition, 0);
    if at.None? then Failure(NoOperator)
    else
      var parts := Split(condition, Symbol(at.value));
      if |parts| != 2 then Failure(TooManyParts)
      else
        var k, v := parts[0], parts[1];
        var longer := v != [] && v[0] == '=';
        var suffix := if longer then SuffixOf(Symbol(at.value) + "=") else Suffix(at.value);
        BuildParameter(models, Split(k, "."), suffix, ParseValue(if longer then v[1..] else v))
  }

  function BuildParameter(models: seq<string>, keys: seq<string>, suffix: string, value: Value)
    : Result<Parameter, ClientError>
    requires |keys| > 0
  {
    var name := Lower(Strip(keys[0]));
    if name in TABLES then Success(Parameter(Strip(keys[0] + "." + Join(keys[1..], "__") + suffix), value, true))
    else if name == "model" && Upper(ValueText(value)) !in models then Failure(UnknownModel)
    else
      var sent := if value.StrValue? && name != "bootmode" then StrValue(Upper(value.s)) else value;
      Success(Parameter(Join(keys, "__") + suffix, sent, false))
  }

  type Kwargs = seq<(string, Value)>

  function Position(kwargs: Kwargs, key: string): (r: Option<nat>)
    ensures r.Some? ==> r.value < |kwargs| && kwargs[r.value].0 == key
    ensures r.None? <==> forall i :: 0 <= i < |kwargs| ==> kwargs[i].0 != key
  {
    if kwargs == [] then None
    else if kwargs[0].0 == key then Some(0)
    else
      var rest := Position(kwargs[1..], key);
      if rest.None? then None else Some(rest.value + 1)
  }

  /** Adds a parameter; a repeated plain key replaces the value, a repeated table key with a true value fails. */
  function Put(kwargs: Kwargs, p: Parameter): Result<Kwargs, ClientError> {
    var at := Position(kwargs, p.key);
    if at.None? then Success(kwargs + [(p.key, p.value)])
    else if p.table && Truthy(kwargs[at.value].1) then Failure(RepeatedTableField)
    else Success(kwargs[at.value := (p.key, p.value)])
  }

  /** Adds parsed conditions in order, up to the first failure. */
  function PutAll(parsed: seq<Result<Parameter, ClientError>>, kwargs: Kwargs): Result<Kwargs, ClientError>
    decreases |parsed|
  {
    if parsed == [] then Success(kwargs)
    else
      match parsed[0]
      case Failure(e) => Failure(e)
      case Success(p) =>
        match Put(kwargs, p)
        case Failure(e) => Failure(e)
        case Success(more) => PutAll(parsed[1..], more)
  }

  function ParseEach(models: seq<string>, conditions: seq<string>): (r: seq<Result<Parameter, ClientError>>)
    ensures |r| == |conditions|
  {
    seq(|conditions|, i requires 0 <= i < |conditions| => ParseCondition(models, conditions[i]))
  }

  function ParseAll(models: seq<string>, conditions: seq<string>): Result<Kwargs, ClientError> {
    PutAll(ParseEach(models, conditions), [])
  }

  /** Tries the operators in turn on one condition. */
  method ParseOne(models: seq<string>, condition: string) returns (result: Result<Parameter, ClientError>)
    ensures result == ParseCondition(models, condition)
  {
    var j := 0;
    while j < OP_COUNT && !Contains(condition, Symbol(j))
      invariant 0 <= j <= OP_COUNT
      invariant FirstOp(condition, j) == FirstOp(condition, 0)
    {
      j := j + 1;
    }
    if j == OP_COUNT {
      return Failure(NoOperator);
    }
    var parts := Split(condition, Symbol(j));
    if |parts| != 2 {
      return Failure(TooManyParts);
    }
    var v, suffix := parts[1], Suffix(j);
    if v != [] && v[0] == '=' {
      suffix := SuffixOf(Symbol(j) + "=");
      v := v[1..];
    }
    return BuildParameter(models, Split(parts[0], "."), suffix, ParseValue(v));
  }

  method FilterKwargs(models: seq<string>, filterArgs: string) returns (result: Result<Kwargs, ClientError>)
    ensures result == ParseAll(models, Split(filterArgs, ","))
  {
    var kwargs: Kwargs := [];
    var conditions := Split(filterArgs, ",");
    var i := 0;
    ghost var parsed := ParseEach(models, conditions);
    assert parsed[0..] == parsed;
    while i < |conditions|
      invariant 0 <= i <= |conditions|
      invariant PutAll(parsed[i..], kwargs) == PutAll(parsed, [])
    {
      assert parsed[i..][0] == parsed[i] && parsed[i..][1..] == parsed[i + 1..];
      var parameter := ParseOne(models, conditions[i]);
      if parameter.Failure? {
        return Failure(parameter.error);
      }
      var more := Put(kwargs, parameter.value);
      if more.Failure? {
        return Failure(more.error);
      }
      kwargs := more.value;
      i := i + 1;
    }
    return Success(kwargs);
  }

  // ---------------------------------------------------------------- the server's decoder

  /** What a host attribute is: a boolean or other column, a link to a cloud, or one of the tables. */
  datatype Kind = BooleanColumn | Column | CloudLink | Table

  datatype Schema = Schema(attributes: map<string, Kind>, clouds: set<string>)

  /** A value as compared with; text in square brackets is first offered to the JSON reader. */
  datatype Received = Whole(s: string) | Bracketed(s: string) | Parts(parts: seq<string>) | Flag(b: bool)

  datatype HostFilter = HostFilter(field: string, op: string, value: Received)

  datatype ServerError = TooManyArguments | InvalidOperator | InvalidField | CloudNotFound | ListOfClouds

  const OPERATORS: map<string, string> := map[
    "__ne" := "!=", "__lt" := "<", "__lte" := "<=", "__gt" := ">", "__gte" := ">=",
    "__like" := "like", "__ilike" := "ilike", "__in" := "in"]

  function Last<T>(s: seq<T>): T
    requires |s| > 0
  {
    s[|s| - 1]
  }

  /** The operator suffix of a parameter name. */
  function OpSuffix(k: string): string {
    "__" + Last(Split(k, "__"))
  }

  /** Attribute, field and operator a parameter name stands for. */
  function DecodeKey(k: string): Result<(string, string, string), ServerError> {
    var fields := Split(k, ".");
    if |fields| > 2 then Failure(TooManyArguments)
    else
      var first, name := fields[0], Last(fields);
      if !Contains(k, "__") then Success((first, name, "=="))
      else
        var op := OpSuffix(k);
        var at := Find(name, op);
        if op !in OPERATORS || at.None? then Failure(InvalidOperator)
        else Success((if first == name then name[..at.value] else first, name[..at.value], OPERATORS[op]))
  }

  function AsReceived(value: string): Received {
    if value != [] && value[0] == '[' && value[|value| - 1] == ']' then Bracketed(value) else Whole(value)
  }

  function DecodeValue(schema: Schema, kind: Kind, op: string, value: string): Result<Received, ServerError> {
    if op == "in" then if kind.CloudLink? then Failure(ListOfClouds) else Success(Parts(Split(value, ",")))
    else
      match kind
      case BooleanColumn => Success(Flag(Lower(value) in ["true", "y", "yes"]))
      case CloudLink => if Lower(value) in schema.clouds then Success(Whole(Lower(value))) else Failure(CloudNotFound)
      case _ => Success(AsReceived(value))
  }

  function DecodeParameter(schema: Schema, k: string, value: string): Result<HostFilter, ServerError> {
    match DecodeKey(k)
    case Failure(e) => Failure(e)
    case Success((first, name, op)) =>
      if first !in schema.attributes then Failure(InvalidField)
      else
        var kind := schema.attributes[first];
        match DecodeValue(schema, kind, op, value)
        case Failure(e) => Failure(e)
        case Success(received) =>
          var field := if kind.Table? && Contains(k, ".") then Lower(first) + "." + Lower(name) else name;
          Success(HostFilter(field, op, received))
  }

  function Prepend(filters: seq<HostFilter>, rest: Result<seq<HostFilter>, ServerError>)
    : Result<seq<HostFilter>, ServerError>
  {
    match rest
    case Failure(e) => Failure(e)
    case Success(more) => Success(filters + more)
  }

  function DecodeAll(schema: Schema, data: seq<(string, string)>): Result<seq<HostFilter>, ServerError> {
    if data == [] then Success([])
    else
      match DecodeParameter(schema, data[0].0, data[0].1)
      case Failure(e) => Failure(e)
      case Success(f) => Prepend([f], DecodeAll(schema, data[1..]))
  }

  lemma PrependTwice(filters: seq<HostFilter>, f: HostFilter, rest: Result<seq<HostFilter>, ServerError>)
    ensures Prepend(filters, Prepend([f], rest)) == Prepend(filters + [f], rest)
  {
    if rest.Success? {
      assert filters + ([f] + rest.value) == filters + [f] + rest.value;
    }
  }

  lemma PrependNothing(rest: Result<seq<HostFilter>, ServerError>)
    ensures Prepend([], rest) == rest
  {
    if rest.Success? {
      assert [] + rest.value == rest.value;
    }
  }

  method FilterHostsDict(schema: Schema, data: seq<(string, string)>)
    returns (result: Result<seq<HostFilter>, ServerError>)
    ensures result == DecodeAll(schema, data)
  {
    var filters: seq<HostFilter> := [];
    var i := 0;
    assert data[0..] == data;
    PrependNothing(DecodeAll(schema, data));
    while i < |data|
      invariant 0 <= i <= |data|
      invariant DecodeAll(schema, data) == Prepend(filters, DecodeAll(schema, data[i..]))
    {
      assert data[i..][0] == data[i] && data[i..][1..] == data[i + 1..];
      var decoded := DecodeParameter(schema, data[i].0, data[i].1);
      if decoded.Failure? {
        return Failure(decoded.error);
      }
      PrependTwice(filters, decoded.value, DecodeAll(schema, data[i + 1..]));
      filters := filters + [decoded.value];
      i := i + 1;
    }
    assert filters + [] == filters;
    return Success(filters);
  }

  /** Parameters as the server receives them: every value has become text. */
  function Sent(kwargs: Kwargs): (r: seq<(string, string)>)
    ensures |r| == |kwargs|
  {
    seq(|kwargs|, i requires 0 <= i < |kwargs| => (kwargs[i].0, ValueText(kwargs[i].1)))
  }
}
