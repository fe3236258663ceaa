/** The configuration strings that the documentation and the tests of the repository show, spelled out,
    with what they stand for. */
module Documented {
  import opened Text
  import opened Decimal
  import opened StringParser
  import opened Endpoints
  import opened Fields
  import opened FlagBits
  import opened FlagNames
  import opened Configuration

  // ----- endpoints

  lemma PortsPrinted()
    ensures PrintNat(8889) == "8889" && PrintNat(8890) == "8890" && PrintNat(8891) == "8891"
  {
    assert PrintNat(8) == "8" && PrintNat(88) == "88" && PrintNat(888) == "888" && PrintNat(889) == "889";
  }

  lemma ThreePorts(prefix: string)
    ensures Interval(8889, 8891) == [8889, 8890, 8891]
    ensures IdStrings(prefix, [8889, 8890, 8891]) == [prefix + "8889", prefix + "8890", prefix + "8891"]
  {
    PortsPrinted();
    hide PrintNat;
    assert Interval(8891, 8891) == [8891] && Interval(8890, 8891) == [8890] + [8891];
    assert [8889, 8890, 8891][1..] == [8890, 8891] && [8890, 8891][1..] == [8891] && [8891][1..] == [];
    assert IdStrings(prefix, [8891]) == [prefix + "8891"];
    assert IdStrings(prefix, [8890, 8891]) == [prefix + "8890"] + [prefix + "8891"];
  }

  lemma RangePrinted(prefix: string)
    requires IsPrefix(prefix)
    ensures Valid(Range(prefix, 8889, 8891)) && Print(Range(prefix, 8889, 8891)) == prefix + "[8889-8891]"
  {
    PortsPrinted();
    hide PrintNat, IsPrefix;
    assert RangeText(8889, 8891) == "8889-8891";
    assert "[" + ("8889-8891" + "]") == "[8889-8891]";
  }

  lemma ListNumbersPrinted()
    ensures PrintIds([8889, 8890, 8891]) == "8889,8890,8891"
  {
    PortsPrinted();
    hide PrintNat;
    assert [8889, 8890, 8891][1..] == [8890, 8891] && [8890, 8891][1..] == [8891];
    assert PrintIds([8891]) == "8891" && PrintIds([8890, 8891]) == "8890,8891";
  }

  lemma ListPrinted(prefix: string)
    requires IsPrefix(prefix)
    ensures Valid(Members(prefix, [8889, 8890, 8891]))
    ensures Print(Members(prefix, [8889, 8890, 8891])) == prefix + "[8889,8890,8891]"
  {
    ListNumbersPrinted();
    hide PrintIds, IsPrefix;
    assert "[" + ("8889,8890,8891" + "]") == "[8889,8890,8891]";
  }

  /** The range and the list of the introduction, behind any prefix. */
  lemma ThreePortsParsed(prefix: string)
    requires IsPrefix(prefix)
    ensures var ports := [prefix + "8889", prefix + "8890", prefix + "8891"];
            && Parse(Some(prefix + "[8889-8891]")) == Parsed(ports) && FlatCount(prefix + "[8889-8891]") == Some(3)
            && Parse(Some(prefix + "[8889,8890,8891]")) == Parsed(ports) && FlatCount(prefix + "[8889,8890,8891]") == Some(3)
  {
    RangePrinted(prefix);
    ListPrinted(prefix);
    ThreePorts(prefix);
    hide Valid, Print, Interval, IdStrings, Parse, FlatCount, IsPrefix;
    OneEntryParses(Range(prefix, 8889, 8891));
    OneEntryParses(Members(prefix, [8889, 8890, 8891]));
  }

  lemma StarAddresses()
    ensures IsPrefix("*:") && "*:" + "[8889-8891]" == "*:[8889-8891]"
    ensures "*:" + "8889" == "*:8889" && "*:" + "8890" == "*:8890" && "*:" + "8891" == "*:8891"
  {
  }

  /** The first of them in full. */
  lemma RangeOfTheIntroduction()
    ensures Parse(Some("*:[8889-8891]")) == Parsed(["*:8889", "*:8890", "*:8891"])
  {
    hide Parse, FlatCount, IsPrefix;
    StarAddresses();
    ThreePortsParsed("*:");
  }

  lemma ThreeEntries(a: Endpoint, b: Endpoint, c: Endpoint)
    requires Valid(a) && Valid(b) && Valid(c)
    ensures AllValid([a, b, c])
    ensures PrintAll([a, b, c]) == Print(a) + ("," + (Print(b) + ("," + Print(c))))
    ensures AllStrings([a, b, c]) == Strings(a) + (Strings(b) + Strings(c))
    ensures LoopEnds(a) && LoopEnds(b) && LoopEnds(c) ==> AllLoopsEnd([a, b, c])
  {
    hide Print, Strings, Valid, LoopEnds;
    assert [a, b, c][1..] == [b, c] && [b, c][1..] == [c] && [c][1..] == [];
    assert PrintAll([c]) == Print(c) && PrintAll([b, c]) == Print(b) + ("," + Print(c));
    assert AllStrings([c]) == Strings(c) + [] == Strings(c);
    assert AllStrings([b, c]) == Strings(b) + Strings(c);
  }

  lemma SmallNumbers()
    ensures PrintNat(0) == "0" && PrintNat(1) == "1" && PrintNat(2) == "2" && PrintNat(3) == "3"
  {
  }

  lemma SmallRange()
    ensures var e := Range("inproc", 0, 1);
            Valid(e) && LoopEnds(e) && Print(e) == "inproc[0-1]" && Strings(e) == ["inproc0", "inproc1"]
  {
    SmallNumbers();
    hide PrintNat;
    assert RangeText(0, 1) == "0-1";
    assert Interval(1, 1) == [1] && Interval(0, 1) == [0, 1] && [0, 1][1..] == [1] && [1][1..] == [];
    assert IdStrings("inproc", [1]) == ["inproc" + "1"];
    assert "inproc" + "0" == "inproc0" && "inproc" + "1" == "inproc1";
  }

  lemma SmallList()
    ensures var e := Members("inproc", [2, 3]);
            Valid(e) && LoopEnds(e) && Print(e) == "inproc[2,3]" && Strings(e) == ["inproc2", "inproc3"]
  {
    SmallNumbers();
    hide PrintNat;
    assert [2, 3][1..] == [3] && [3][1..] == [] && PrintIds([3]) == "3" && PrintIds([2, 3]) == "2,3";
    assert IdStrings("inproc", [3]) == ["inproc" + "3"];
    assert "inproc" + "2" == "inproc2" && "inproc" + "3" == "inproc3";
  }

  lemma SingleMember()
    ensures var e := Members("inproc", [0]);
            Valid(e) && LoopEnds(e) && Print(e) == "inproc[0]" && Strings(e) == ["inproc0"]
  {
    SmallNumbers();
    hide PrintNat;
    assert [0][1..] == [] && PrintIds([0]) == "0" && "inproc" + "0" == "inproc0";
  }

  lemma MixedPrinted()
    ensures "inproc[0-1]" + ("," + ("inproc[2,3]" + ("," + "inproc4"))) == "inproc[0-1],inproc[2,3],inproc4"
    ensures ["inproc0", "inproc1"] + (["inproc2", "inproc3"] + ["inproc4"])
            == ["inproc0", "inproc1", "inproc2", "inproc3", "inproc4"]
  {
  }

  lemma LastIsPlain()
    ensures var e := Endpoint.Plain("inproc4"); Valid(e) && LoopEnds(e) && Print(e) == "inproc4" && Strings(e) == ["inproc4"]
  {
  }

  /** A single number in brackets, and all kinds of entries together, as the parser's tests have them. */
  lemma EndpointsOfTheTests()
    ensures Parse(Some("inproc[0]")) == Parsed(["inproc0"])
    ensures Parse(Some("inproc[0-1],inproc[2,3],inproc4"))
            == Parsed(["inproc0", "inproc1", "inproc2", "inproc3", "inproc4"])
    ensures FlatCount("inproc[0-1],inproc[2,3],inproc4") == Some(5)
  {
    hide Parse, FlatCount, PrintAll, AllStrings, AllValid, AllLoopsEnd, Valid, LoopEnds, Print, Strings;
    var es := [Range("inproc", 0, 1), Members("inproc", [2, 3]), Endpoint.Plain("inproc4")];
    SingleMember();
    SmallRange();
    SmallList();
    LastIsPlain();
    ThreeEntries(es[0], es[1], es[2]);
    assert es == [es[0], es[1], es[2]];
    OneEntryParses(Members("inproc", [0]));
    MixedPrinted();
    assert |es| == 3 && |[Endpoint.Plain("")]| == 1;
    PrintParse(es);
    ScannersAgree(es);
  }

  // ----- names

  lemma TypeAt(i: nat)
    requires i < |TYPE_NAMES|
    ensures TypeOf(TYPE_NAMES[i]) == i
  {
    TypeNamesDistinct(i, TypeOf(TYPE_NAMES[i]));
  }

  /** Every type by its name and number. */
  lemma TypesByName()
    ensures TypeOf("socket_tx") == 0 && TypeOf("socket_rx") == 1 && TypeOf("fifo_tx") == 2 && TypeOf("fifo_rx") == 3
    ensures TypeOf("zmq_push") == 4 && TypeOf("zmq_pull") == 5 && TypeOf("zmq_pub") == 6 && TypeOf("zmq_sub") == 7
    ensures TypeOf("zmq_req") == 8 && TypeOf("zmq_rep") == 9 && TypeOf("auto") == 10
  {
    hide TypeOf;
    TypeAt(0);
    TypeAt(1);
    TypeAt(2);
    TypeAt(3);
    TypeAt(4);
    TypeAt(5);
    TypeAt(6);
    TypeAt(7);
    TypeAt(8);
    TypeAt(9);
    TypeAt(10);
  }

  /** Every flag by its name and bit; any other name is the invalid bit. */
  lemma FlagsByName()
    ensures FlagOf("default") == 0 && FlagOf("zero") == 1 && FlagOf("prot") == 2 && FlagOf("timeout") == 4
    ensures FlagOf("notify") == 8 && FlagOf("autonotify") == 16 && FlagOf("ack") == 0x8000_0000
  {
  }

  lemma OrNothing(a: bv32)
    ensures Or(0, a) == a
  {
  }

  lemma OneFlag(name: string)
    ensures Union([name]) == FlagOf(name)
  {
    hide FlagOf, Or;
    OrNothing(FlagOf(name));
    assert [name][..0] == [];
  }

  lemma TwoFlags(a: string, b: string)
    ensures Union([a, b]) == Or(FlagOf(a), FlagOf(b))
  {
    hide FlagOf, Or;
    OneFlag(a);
    assert [a, b][..1] == [a];
  }

  lemma FlagsCombined()
    ensures Union(["default"]) == 0 && Union(["zero"]) == 1 && Union(["zero", "timeout"]) == 5
    ensures Union(["zero", "notify"]) == 9 && Union(["zero", "autonotify"]) == 17
  {
    FlagsByName();
    hide Union, FlagOf;
    OneFlag("default");
    OneFlag("zero");
    TwoFlags("zero", "timeout");
    TwoFlags("zero", "notify");
    TwoFlags("zero", "autonotify");
    assert Or(1, 4) == 5 && Or(1, 8) == 9 && Or(1, 16) == 17;
  }

  // ----- whole configurations

  lemma JoinedFields(a: string, b: string, c: string)
    ensures Join([a, b, c], '|') == (a + ("|" + (b + "|"))) + c
    ensures Join([a], ',') == a && Join([a, b], ',') == a + ("," + b)
  {
    assert [a, b, c][1..] == [b, c] && [b, c][1..] == [c] && [a, b][1..] == [b];
    assert Join([b, c], '|') == b + ['|'] + c && Join([c], '|') == c;
  }

  lemma Heads()
    ensures "socket_tx" + ("|" + ("default" + "|")) == "socket_tx|default|"
    ensures "socket_tx" + ("|" + ("zero" + "|")) == "socket_tx|zero|"
    ensures "zero" + ("," + "timeout") == "zero,timeout"
    ensures "socket_rx" + ("|" + ("zero,timeout" + "|")) == "socket_rx|zero,timeout|"
  {
  }

  /** The first two fields of the configurations in the introduction, in front of any endpoints. */
  lemma WrittenOut(endpoints: string)
    ensures Written(0, ["default"], endpoints) == "socket_tx|default|" + endpoints
    ensures Written(0, ["zero"], endpoints) == "socket_tx|zero|" + endpoints
    ensures Written(1, ["zero", "timeout"], endpoints) == "socket_rx|zero,timeout|" + endpoints
  {
    JoinedFields("socket_tx", "default", endpoints);
    JoinedFields("default", "", "");
    JoinedFields("socket_tx", "zero", endpoints);
    JoinedFields("zero", "timeout", "");
    JoinedFields("socket_rx", "zero,timeout", endpoints);
    hide Join;
    Heads();
  }

  lemma WithinGranted(endpoints: string, strings: seq<string>, granted: nat)
    requires Parse(Some(endpoints)) == Parsed(strings) && FlatCount(endpoints) == Some(|strings|)
    requires |strings| <= granted && |strings| < 0x1_0000_0000
    ensures ParseWithin(Some(endpoints), granted) == Parsed(strings)
  {
    hide FlatCount, FillFrom;
  }

  lemma Configured(kind: nat, names: seq<string>, endpoints: string, strings: seq<string>, granted: nat)
    requires kind < |TYPE_NAMES| && names != [] && AllLack(names, ',') && AllLack(names, '|') && Lacks(endpoints, '|')
    requires forall name | name in names :: IsKnown(name)
    requires Parse(Some(endpoints)) == Parsed(strings) && FlatCount(endpoints) == Some(|strings|)
    requires |strings| <= granted && |strings| < 0x1_0000_0000
    ensures ParseConfig(Some(Written(kind, names, endpoints)), granted) == Config(kind, Union(names), strings)
  {
    hide Written, Union, IsKnown, ParseConfig, Parse, FlatCount, Lacks, ParseWithin, AllLack;
    FieldsRead(kind, names, endpoints, granted);
    WithinGranted(endpoints, strings, granted);
  }

  lemma SingleAddress(address: string)
    requires Valid(Endpoint.Plain(address)) && address != ""
    ensures Parse(Some(address)) == Parsed([address]) && FlatCount(address) == Some(1)
  {
    var e := Endpoint.Plain(address);
    assert PrintAll([e]) == address && [e][1..] == [] && AllStrings([e]) == [address] + [];
    hide Parse, FlatCount, FillFrom;
    PrintParse([e]);
    ScannersAgree([e]);
  }

  lemma NamesOfTheIntroduction()
    ensures AllLack(["default"], ',') && AllLack(["default"], '|') && AllLack(["zero"], ',') && AllLack(["zero"], '|')
    ensures AllLack(["zero", "timeout"], ',') && AllLack(["zero", "timeout"], '|')
    ensures IsKnown("default") && IsKnown("zero") && IsKnown("timeout")
  {
    assert FLAG_NAMES[0] == "zero" && FLAG_NAMES[2] == "timeout";
  }

  lemma BracketsLackDelimiter(prefix: string)
    requires Lacks(prefix, '|')
    ensures Lacks(prefix + "[8889-8891]", '|') && Lacks(prefix + "[8889,8890,8891]", '|')
  {
    LacksConcat(prefix, "[8889-8891]", '|');
    LacksConcat(prefix, "[8889,8890,8891]", '|');
  }

  /** The three configurations of the introduction, for any address and any prefix of addresses. */
  lemma ConfigurationsOfTheIntroduction(address: string, prefix: string, granted: nat)
    requires granted >= 3 && Lacks(address, '|') && Lacks(prefix, '|')
    requires Valid(Endpoint.Plain(address)) && address != "" && IsPrefix(prefix)
    ensures ParseConfig(Some("socket_tx|default|" + address), granted) == Config(0, 0, [address])
    ensures ParseConfig(Some("socket_tx|zero|" + (prefix + "[8889,8890,8891]")), granted)
            == Config(0, 1, [prefix + "8889", prefix + "8890", prefix + "8891"])
    ensures ParseConfig(Some("socket_rx|zero,timeout|" + (prefix + "[8889-8891]")), granted)
            == Config(1, 5, [prefix + "8889", prefix + "8890", prefix + "8891"])
  {
    hide Written, Union, IsKnown, ParseConfig, Parse, FlatCount, Lacks, AllLack, Valid, IsPrefix;
    var list, range := prefix + "[8889,8890,8891]", prefix + "[8889-8891]";
    var ports := [prefix + "8889", prefix + "8890", prefix + "8891"];
    WrittenOut(address);
    WrittenOut(list);
    WrittenOut(range);
    NamesOfTheIntroduction();
    FlagsCombined();
    BracketsLackDelimiter(prefix);
    SingleAddress(address);
    ThreePortsParsed(prefix);
    Configured(0, ["default"], address, [address], granted);
    Configured(0, ["zero"], list, ports, granted);
    Configured(1, ["zero", "timeout"], range, ports, granted);
  }
}
