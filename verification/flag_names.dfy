/** Flags by name, as they are written in a configuration string. */
module FlagNames {
  import opened StringParser
  import opened Fields
  import opened FlagBits

  const FLAG_NAMES: seq<string> := ["zero", "prot", "timeout", "notify", "autonotify"]

  function FlagBit(i: nat): bv32
    requires i < |FLAG_NAMES|
  {
    if i == 0 then FLAG_ZERO
    else if i == 1 then FLAG_PROT
    else if i == 2 then FLAG_TIMEOUT
    else if i == 3 then FLAG_NOTIFY
    else FLAG_AUTONOTIFY
  }

  predicate IsKnown(name: string) {
    name == "default" || name in FLAG_NAMES
  }

  /** The bits that a name stands for: none for the default, the flag's own, or the invalid bit. */
  function FlagOf(name: string): (flag: bv32)
    ensures name == "default" ==> flag == FLAG_DEFAULT
    ensures forall i | 0 <= i < |FLAG_NAMES| && name == FLAG_NAMES[i] :: flag == FlagBit(i)
    ensures !IsKnown(name) ==> flag == FLAG_INVALID
  {
    if name == "zero" then FLAG_ZERO
    else if name == "prot" then FLAG_PROT
    else if name == "timeout" then FLAG_TIMEOUT
    else if name == "notify" then FLAG_NOTIFY
    else if name == "autonotify" then FLAG_AUTONOTIFY
    else if name == "default" then FLAG_DEFAULT
    else FLAG_INVALID
  }

  lemma ShiftIsBit(i: nat)
    requires i < |FLAG_NAMES|
    ensures (1 as bv32) << i == FlagBit(i)
  {
    if i == 0 {
    } else if i == 1 {
    } else if i == 2 {
    } else if i == 3 {
    } else {
    }
  }

  method FindFlag(name: string) returns (flag: bv32)
    ensures flag == FlagOf(name)
  {
    hide FlagOf;
    if name == "default" {
      return FLAG_DEFAULT;
    }
    var i := 0;
    while i < |FLAG_NAMES|
      invariant 0 <= i <= |FLAG_NAMES|
      invariant name !in FLAG_NAMES[..i]
    {
      if name == FLAG_NAMES[i] {
        ShiftIsBit(i);
        return (1 as bv32) << i;
      }
      i := i + 1;
    }
    return FLAG_INVALID;
  }

  function Or(a: bv32, b: bv32): bv32 {
    a | b
  }

  /** The names of a flag field combined, from left to right. */
  function Union(names: seq<string>): bv32 {
    if names == [] then 0 else Or(Union(names[..|names| - 1]), FlagOf(names[|names| - 1]))
  }

  lemma UnionStep(names: seq<string>, i: nat)
    requires i < |names|
    ensures Union(names[..i + 1]) == Union(names[..i]) | FlagOf(names[i])
  {
    hide FlagOf;
    assert names[..i + 1][..i] == names[..i];
  }

  method StringToFlags(flagString: string) returns (flags: bv32)
    ensures flags == Union(Split(flagString, ','))
  {
    hide Split, FlagOf;
    var fields := InitFields(Some(flagString), ',');
    var flagStrings := fields.value;
    flags := 0;
    var i := 0;
    while i < |flagStrings|
      invariant 0 <= i <= |flagStrings|
      invariant flags == Union(flagStrings[..i])
    {
      var flag := FindFlag(flagStrings[i]);
      UnionStep(flagStrings, i);
      flags := flags | flag;
      i := i + 1;
    }
    assert flagStrings[..|flagStrings|] == flagStrings;
  }

  // ----- which bits come out

  lemma NameBits(name: string)
    ensures forall i | 0 <= i < |FLAG_NAMES| :: FlagOf(name) & FlagBit(i) != 0 <==> name == FLAG_NAMES[i]
    ensures FlagOf(name) & FLAG_INVALID != 0 <==> !IsKnown(name)
    ensures FlagOf(name) & 0x7fff_ffe0 == 0
  {
  }

  lemma InButLast(names: seq<string>, name: string)
    requires names != []
    ensures name in names <==> name in names[..|names| - 1] || name == names[|names| - 1]
  {
    assert names == names[..|names| - 1] + [names[|names| - 1]];
  }

  /** Some bit of the mask is set. */
  predicate Meets(flags: bv32, mask: bv32) {
    flags & mask != 0
  }

  lemma OrMask(a: bv32, b: bv32, m: bv32)
    ensures (a | b) & m != 0 <==> a & m != 0 || b & m != 0
  {
  }

  lemma OrMeets(a: bv32, b: bv32, m: bv32)
    ensures Meets(Or(a, b), m) <==> Meets(a, m) || Meets(b, m)
  {
    assert Or(a, b) == a | b;
    assert Meets(a | b, m) <==> (a | b) & m != 0;
    OrMask(a, b, m);
  }

  lemma NoneMeets(m: bv32)
    ensures !Meets(Union([]), m)
  {
  }

  lemma NameMeets(name: string, i: nat)
    requires i < |FLAG_NAMES|
    ensures Meets(FlagOf(name), FlagBit(i)) <==> name == FLAG_NAMES[i]
  {
    NameBits(name);
  }

  /** The bit of a flag is set exactly if its name occurs, whatever the order and repetition. */
  lemma {:induction false} UnionHasBit(names: seq<string>, i: nat)
    requires i < |FLAG_NAMES|
    ensures Meets(Union(names), FlagBit(i)) <==> FLAG_NAMES[i] in names
  {
    hide FlagOf, FlagBit, IsKnown, Meets, Or;
    if names == [] {
      NoneMeets(FlagBit(i));
    } else {
      var rest, last := names[..|names| - 1], names[|names| - 1];
      UnionHasBit(rest, i);
      NameMeets(last, i);
      OrMeets(Union(rest), FlagOf(last), FlagBit(i));
      InButLast(names, FLAG_NAMES[i]);
    }
  }

  lemma UnknownMeets(name: string)
    ensures Meets(FlagOf(name), FLAG_INVALID) <==> !IsKnown(name)
  {
    NameBits(name);
  }

  /** The invalid bit is set exactly if some name is unknown. */
  lemma {:induction false} UnionInvalid(names: seq<string>)
    ensures Meets(Union(names), FLAG_INVALID) <==> exists name :: name in names && !IsKnown(name)
  {
    hide FlagOf, FlagBit, IsKnown, Meets, Or;
    if names == [] {
      NoneMeets(FLAG_INVALID);
    } else {
      var rest, last := names[..|names| - 1], names[|names| - 1];
      UnionInvalid(rest);
      UnknownMeets(last);
      OrMeets(Union(rest), FlagOf(last), FLAG_INVALID);
      assert names == rest + [last];
    }
  }

  lemma {:induction false} UnionNothingElse(names: seq<string>)
    ensures Union(names) & 0x7fff_ffe0 == 0
  {
    hide FlagOf, FlagBit, IsKnown;
    if names == [] {
    } else {
      UnionNothingElse(names[..|names| - 1]);
      NameBits(names[|names| - 1]);
    }
  }

  /** Every bit of a is in b. */
  predicate Within(a: bv32, b: bv32) {
    a | b == b
  }

  lemma OrWithin(a: bv32, b: bv32, c: bv32)
    requires Within(a, c) && Within(b, c)
    ensures Within(a | b, c)
  {
  }

  lemma WithinOr(a: bv32, b: bv32)
    ensures Within(a, b | a) && Within(a, a | b)
  {
  }

  lemma WithinMore(a: bv32, b: bv32, c: bv32)
    requires Within(a, b)
    ensures Within(a, b | c)
  {
  }

  lemma WithinBoth(a: bv32, b: bv32)
    requires Within(a, b) && Within(b, a)
    ensures a == b
  {
  }

  lemma ZeroWithin(a: bv32)
    ensures Within(0, a)
  {
  }

  lemma {:induction false} NameWithinUnion(name: string, all: seq<string>)
    requires name in all
    ensures Within(FlagOf(name), Union(all))
  {
    hide FlagOf, Within;
    var n := |all| - 1;
    assert all == all[..n] + [all[n]];
    if name == all[n] {
      WithinOr(FlagOf(name), Union(all[..n]));
    } else {
      NameWithinUnion(name, all[..n]);
      WithinMore(FlagOf(name), Union(all[..n]), FlagOf(all[n]));
    }
  }

  lemma {:induction false} UnionWithinUnion(some: seq<string>, all: seq<string>)
    requires forall k | 0 <= k < |some| :: some[k] in all
    ensures Within(Union(some), Union(all))
  {
    hide FlagOf, Within;
    if some == [] {
      ZeroWithin(Union(all));
    } else {
      var n := |some| - 1;
      UnionWithinUnion(some[..n], all);
      NameWithinUnion(some[n], all);
      OrWithin(Union(some[..n]), FlagOf(some[n]), Union(all));
    }
  }

  /** Two flag fields with the same names, in any order and with any repetition, mean the same. */
  lemma UnionIsOfSet(a: seq<string>, b: seq<string>)
    requires forall name :: name in a <==> name in b
    ensures Union(a) == Union(b)
  {
    hide Union, Within;
    UnionWithinUnion(a, b);
    UnionWithinUnion(b, a);
    WithinBoth(Union(a), Union(b));
  }
}
