/** The configuration string "type|flags|endpoints" that opens a communication object. */
module Configuration {
  import opened Text
  import opened Decimal
  import opened StringParser
  import opened Fields
  import opened FlagBits
  import opened FlagNames
  import opened Endpoints

  const DELIMITER := '|'

  const TYPE_NAMES: seq<string> :=
    ["socket_tx", "socket_rx", "fifo_tx", "fifo_rx", "zmq_push", "zmq_pull", "zmq_pub", "zmq_sub", "zmq_req", "zmq_rep",
     "auto"]

  const TYPE_AUTO := 10
  const TYPE_NONE := 11

  /** UndefinedConfig: a field the string does not have is read, or the endpoint parser's own undefined
      cases. */
  datatype ConfigResult =
    | Config(kind: nat, flags: bv32, endpoints: seq<string>)
    | InvalidArgument
    | LookupError
    | UndefinedConfig

  function TypeOf(name: string): (kind: nat)
    ensures kind < |TYPE_NAMES| ==> TYPE_NAMES[kind] == name
    ensures kind < |TYPE_NAMES| || (kind == TYPE_NONE && name !in TYPE_NAMES)
  {
    if name in TYPE_NAMES then var k :| 0 <= k < |TYPE_NAMES| && TYPE_NAMES[k] == name; k else TYPE_NONE
  }

  lemma TypeNamesDistinct(i: nat, j: nat)
    requires i < |TYPE_NAMES| && j < |TYPE_NAMES| && TYPE_NAMES[i] == TYPE_NAMES[j]
    ensures i == j
  {
  }

  method StringToType(name: string) returns (kind: nat)
    ensures kind == TypeOf(name)
  {
    var i := 0;
    while i < |TYPE_NAMES|
      invariant 0 <= i <= |TYPE_NAMES|
      invariant forall k | 0 <= k < i :: TYPE_NAMES[k] != name
    {
      if name == TYPE_NAMES[i] {
        TypeNamesDistinct(i, TypeOf(name));
        return i;
      }
      i := i + 1;
    }
    return TYPE_NONE;
  }

  /** What icom_init reads out of its argument before it opens any link. */
  function ParseConfig(text: Option<string>, granted: nat): ConfigResult {
    if text.None? then InvalidArgument
    else
      var fields := Split(text.value, DELIMITER);
      var kind := TypeOf(fields[0]);
      if kind == TYPE_NONE then LookupError
      else if |fields| < 2 then UndefinedConfig
      else
        var flags := Union(Split(fields[1], ','));
        if flags & FLAG_INVALID != 0 then LookupError
        else if |fields| < 3 then UndefinedConfig
        else match ParseWithin(Some(fields[2]), granted)
          case Parsed(strings) => Config(kind, flags, strings)
          case Rejected => InvalidArgument
          case Undefined => UndefinedConfig
  }

  method ReadConfiguration(text: Option<string>, granted: nat) returns (r: ConfigResult)
    ensures r == ParseConfig(text, granted)
  {
    hide Split, TypeOf, Union, ParseWithin;
    var split := InitFields(text, DELIMITER);
    if split.None? {
      return InvalidArgument;
    }
    var fields := split.value;
    var kind := StringToType(fields[0]);
    if kind == TYPE_NONE {
      return LookupError;
    }
    if |fields| < 2 {
      return UndefinedConfig;
    }
    var flags := StringToFlags(fields[1]);
    if flags & FLAG_INVALID != 0 {
      return LookupError;
    }
    if |fields| < 3 {
      return UndefinedConfig;
    }
    var endpoints := InitStrArray(Some(fields[2]), granted);
    match endpoints {
      case Parsed(strings) => r := Config(kind, flags, strings);
      case Rejected => r := InvalidArgument;
      case Undefined => r := UndefinedConfig;
    }
  }

  lemma TypeNamesLackDelimiter(kind: nat)
    requires kind < |TYPE_NAMES|
    ensures Lacks(TYPE_NAMES[kind], DELIMITER)
  {
  }

  lemma {:induction false} JoinLacks(parts: seq<string>, separator: char, c: char)
    requires parts != [] && AllLack(parts, c) && separator != c
    ensures Lacks(Join(parts, separator), c)
  {
    if |parts| <= 1 {
    } else {
      JoinLacks(parts[1..], separator, c);
      LacksConcat(parts[0], [separator], c);
      LacksConcat(parts[0] + [separator], Join(parts[1..], separator), c);
    }
  }

  function Written(kind: nat, names: seq<string>, endpoints: string): string
    requires kind < |TYPE_NAMES|
  {
    Join([TYPE_NAMES[kind], Join(names, ','), endpoints], DELIMITER)
  }

  /** Whatever the third field, and whatever fields come after it, the type and the flags are read back,
      and nothing after the third field matters. */
  lemma AllFieldsRead(kind: nat, names: seq<string>, endpoints: string, more: seq<string>, granted: nat)
    requires kind < |TYPE_NAMES| && names != [] && AllLack(more, DELIMITER)
    requires AllLack(names, ',') && AllLack(names, DELIMITER) && Lacks(endpoints, DELIMITER)
    ensures ParseConfig(Some(Join([TYPE_NAMES[kind], Join(names, ','), endpoints] + more, DELIMITER)), granted) ==
            if exists name :: name in names && !IsKnown(name) then LookupError
            else match ParseWithin(Some(endpoints), granted)
              case Parsed(strings) => Config(kind, Union(names), strings)
              case Rejected => InvalidArgument
              case Undefined => UndefinedConfig
  {
    hide Split, Join, Union, TypeOf, ParseWithin, IsKnown;
    var fields := [TYPE_NAMES[kind], Join(names, ','), endpoints] + more;
    TypeNamesLackDelimiter(kind);
    JoinLacks(names, ',', DELIMITER);
    SplitJoin(fields, DELIMITER);
    TypeNamesDistinct(kind, TypeOf(fields[0]));
    SplitJoin(names, ',');
    UnionInvalid(names);
  }

  lemma FieldsRead(kind: nat, names: seq<string>, endpoints: string, granted: nat)
    requires kind < |TYPE_NAMES| && names != []
    requires AllLack(names, ',') && AllLack(names, DELIMITER) && Lacks(endpoints, DELIMITER)
    ensures ParseConfig(Some(Written(kind, names, endpoints)), granted) ==
            if exists name :: name in names && !IsKnown(name) then LookupError
            else match ParseWithin(Some(endpoints), granted)
              case Parsed(strings) => Config(kind, Union(names), strings)
              case Rejected => InvalidArgument
              case Undefined => UndefinedConfig
  {
    hide Join, Union, ParseWithin, IsKnown, ParseConfig;
    AllFieldsRead(kind, names, endpoints, [], granted);
    assert [TYPE_NAMES[kind], Join(names, ','), endpoints] + [] == [TYPE_NAMES[kind], Join(names, ','), endpoints];
  }

  lemma JoinOne(a: string, c: char)
    ensures Join([a], c) == a
  {
  }

  /** Without a configuration, or with too few fields: the type is looked up first, then the flags, and
      what is good so far leads past the end of the fields. */
  lemma FewFields(a: string, b: string, granted: nat)
    requires Lacks(a, DELIMITER) && Lacks(b, DELIMITER)
    ensures ParseConfig(None, granted) == InvalidArgument
    ensures ParseConfig(Some(a), granted) == if a in TYPE_NAMES then UndefinedConfig else LookupError
    ensures ParseConfig(Some(Join([a, b], DELIMITER)), granted) ==
            if a in TYPE_NAMES && forall name | name in Split(b, ',') :: IsKnown(name) then UndefinedConfig else LookupError
  {
    hide Split, Join, Union, ParseWithin, IsKnown;
    SplitJoin([a], DELIMITER);
    assert Join([a], DELIMITER) == a by { JoinOne(a, DELIMITER); }
    SplitJoin([a, b], DELIMITER);
    UnionInvalid(Split(b, ','));
  }

  /** A configuration written down is read back: the type, the combined bits of all flag names, and
      the connection strings of all endpoints in order; one unknown flag name spoils it. */
  lemma ConfigRoundTrip(kind: nat, names: seq<string>, es: seq<Endpoint>, granted: nat)
    requires kind < |TYPE_NAMES| && names != [] && es != [] && AllValid(es)
    requires AllLack(names, ',') && AllLack(names, DELIMITER) && Lacks(PrintAll(es), DELIMITER)
    ensures ParseConfig(Some(Written(kind, names, PrintAll(es))), granted) ==
            if exists name :: name in names && !IsKnown(name) then LookupError
            else if es == [Endpoint.Plain("")] then InvalidArgument
            else if |AllStrings(es)| > INT_MAX then UndefinedConfig
            else if |AllStrings(es)| > granted then InvalidArgument
            else if AllLoopsEnd(es) then Config(kind, Union(names), AllStrings(es)) else UndefinedConfig
  {
    hide Written, Union, ParseWithin, PrintAll, AllStrings, IsKnown, ParseConfig, AllLoopsEnd;
    FieldsRead(kind, names, PrintAll(es), granted);
    PrintParseWithin(es, granted);
  }

  /** A configuration whose one range is reversed by one is accepted, and names no connection at all. */
  lemma NoConnection(kind: nat, names: seq<string>, prefix: string, n: nat, granted: nat)
    requires kind < |TYPE_NAMES| && names != [] && AllLack(names, ',') && AllLack(names, DELIMITER)
    requires (forall name | name in names :: IsKnown(name)) && IsPrefix(prefix) && n < INT_MAX
    requires Lacks(Bracketed(prefix, RangeText(n + 1, n)), DELIMITER)
    ensures ParseConfig(Some(Written(kind, names, Bracketed(prefix, RangeText(n + 1, n)))), granted)
            == Config(kind, Union(names), [])
  {
    hide Written, Union, IsKnown, ParseConfig, Bracketed, RangeText, FlatCount, FillFrom;
    FieldsRead(kind, names, Bracketed(prefix, RangeText(n + 1, n)), granted);
    ReversedRange(prefix, n + 1, n);
  }
}
