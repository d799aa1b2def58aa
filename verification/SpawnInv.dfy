/** The spawn inventory of common/g_spawninv.cpp: printing it as a list of parameters, and parsing such a list. */
module SpawnInv {
  import opened TextTokens
  import opened Wrappers

  type int32 = x: int | -0x8000_0000 <= x < 0x8000_0000

  // ----- Numbers

  function Digit(d: nat): char
    requires d < 10
  {
    '0' + d as char
  }

  function Digits(n: nat): (s: string)
    ensures s != "" && forall i :: 0 <= i < |s| ==> '0' <= s[i] <= '9'
  {
    if n < 10 then [Digit(n)] else Digits(n / 10) + [Digit(n % 10)]
  }

  /** The %d of the source. */
  function Decimal(n: int): (s: string)
    ensures Clean(s)
  {
    if n < 0 then "-" + Digits(-n) else Digits(n)
  }

  function DigitsValue(s: string, acc: nat): nat {
    if s != "" && '0' <= s[0] <= '9' then DigitsValue(s[1..], 10 * acc + (s[0] - '0') as nat) else acc
  }

  function SkipSpaces(s: string): string {
    if s != "" && IsSpace(s[0]) then SkipSpaces(s[1..]) else s
  }

  /** atoi; a value that does not fit is undefined. */
  function Atoi(s: string): Option<int32> {
    var t := SkipSpaces(s);
    var n: int := if t == "" then 0
             else if t[0] == '-' then 0 - DigitsValue(t[1..], 0)
             else if t[0] == '+' then DigitsValue(t[1..], 0)
             else DigitsValue(t, 0);
    if -0x8000_0000 <= n < 0x8000_0000 then Some(n) else None
  }

  lemma {:induction false} DigitsValueConcat(a: string, b: string, acc: nat)
    requires forall i :: 0 <= i < |a| ==> '0' <= a[i] <= '9'
    ensures DigitsValue(a + b, acc) == DigitsValue(b, DigitsValue(a, acc))
    decreases |a|
  {
    if a == "" {
      assert a + b == b;
    } else {
      assert (a + b)[1..] == a[1..] + b;
      DigitsValueConcat(a[1..], b, 10 * acc + (a[0] - '0') as nat);
    }
  }

  lemma {:induction false} DigitsValueOf(n: nat)
    ensures DigitsValue(Digits(n), 0) == n
  {
    if n < 10 {
    } else {
      DigitsValueOf(n / 10);
      DigitsValueConcat(Digits(n / 10), [Digit(n % 10)], 0);
    }
  }

  lemma AtoiDecimal(n: int32)
    ensures Atoi(Decimal(n)) == Some(n)
  {
    var value: int := n;
    if value < 0 {
      assert Decimal(value)[1..] == Digits(-value);
      DigitsValueOf(-value);
    } else {
      DigitsValueOf(value);
    }
  }

  // ----- The inventory

  const NUMWEAPONS: nat := 9

  type Weapon = w: nat | w <= NUMWEAPONS
  type Owned = s: seq<bool> | |s| == 9 witness [false, false, false, false, false, false, false, false, false]

  datatype Inventory = Inventory(
    isdefault: bool, health: int32, armorpoints: int32, armortype: int32, readyweapon: Weapon, weaponowned: Owned,
    clip: int32, shell: int32, cell: int32, misl: int32, berserk: bool, backpack: bool, invul: int32)

  const NOTHING: Owned := [false, false, false, false, false, false, false, false, false]

  /** spawnInventory_t () */
  const FRESH: Inventory :=
    Inventory(false, 100, 0, 0, NUMWEAPONS, NOTHING, 0, 0, 0, 0, false, false, 0)

  /** SetupDefaultInv; both numbers can be changed by DeHackEd. */
  function DefaultInv(startHealth: int32, startBullets: int32): Inventory {
    Inventory(true, startHealth, 0, 0, 1, [true, true, false, false, false, false, false, false, false],
              startBullets, 0, 0, 0, false, false, 0)
  }

  // ----- Weapons as characters

  function WeaponToChar(w: Weapon): char {
    if w <= 6 then '1' + w as char else if w == 7 then 'a' else if w == 8 then 'c' else 'x'
  }

  function WeaponFromChar(c: char): Option<Weapon> {
    if '1' <= c <= '7' then Some((c - '1') as nat)
    else if c == 'A' || c == 'a' then Some(7)
    else if c == 'C' || c == 'c' then Some(8)
    else if c == 'X' || c == 'x' then Some(NUMWEAPONS)
    else None
  }

  function WeaponsFrom(owned: Owned, i: nat): (s: string)
    requires i <= 9
    ensures forall k :: 0 <= k < |s| ==> CleanChar(s[k])
    decreases 9 - i
  {
    if i == 9 then ""
    else if owned[i] then [WeaponToChar(i)] + WeaponsFrom(owned, i + 1)
    else WeaponsFrom(owned, i + 1)
  }

  /** The characters written, and those of the weapons from i on, are all there are. */
  ghost predicate WeaponsLeft(owned: Owned, rvo: string, i: nat, all: string) {
    i <= 9 && all == rvo + WeaponsFrom(owned, i)
  }

  lemma Regroup(a: string, b: string, c: string)
    ensures a + (b + c) == a + b + c
  {
  }

  lemma WeaponStep(owned: Owned, rvo: string, i: nat, all: string)
    requires WeaponsLeft(owned, rvo, i, all)
    ensures i < 9 ==> WeaponsLeft(owned, if owned[i] then rvo + [WeaponToChar(i)] else rvo, i + 1, all)
    ensures i == 9 ==> all == rvo
  {
    if i < 9 {
      Regroup(rvo, [WeaponToChar(i)], WeaponsFrom(owned, i + 1));
    }
  }

  method WeaponsStr(owned: Owned) returns (rvo: string)
    ensures rvo == WeaponsFrom(owned, 0)
  {
    hide WeaponsFrom;
    rvo := "";
    ghost var all := WeaponsFrom(owned, 0);
    assert "" + all == all;
    for i := 0 to 9
      invariant WeaponsLeft(owned, rvo, i, all)
    {
      WeaponStep(owned, rvo, i, all);
      if owned[i] {
        rvo := rvo + [WeaponToChar(i)];
      }
    }
    WeaponStep(owned, rvo, 9, all);
  }

  // ----- Printing

  function Parameter(key: string, value: string): string {
    key + ":" + value
  }

  function Optional(present: bool, parameter: string): seq<string> {
    if present then [parameter] else []
  }

  predicate Armored(inv: Inventory) {
    0 < inv.armortype <= 2 && inv.armorpoints > 0
  }

  function ArmorKey(inv: Inventory): string {
    if inv.armortype == 1 then "armor1" else "armor2"
  }

  function WithGear(params: seq<string>, inv: Inventory): seq<string> {
    params + [Parameter("health", Decimal(inv.health))]
    + Optional(Armored(inv), Parameter(ArmorKey(inv), Decimal(inv.armorpoints)))
    + Optional(inv.readyweapon != NUMWEAPONS, Parameter("rweapon", [WeaponToChar(inv.readyweapon)]))
    + Optional(WeaponsFrom(inv.weaponowned, 0) != "", Parameter("weapons", WeaponsFrom(inv.weaponowned, 0)))
  }

  function WithAmmo(params: seq<string>, inv: Inventory): seq<string> {
    params + Optional(inv.clip > 0, Parameter("bullets", Decimal(inv.clip)))
    + Optional(inv.shell > 0, Parameter("shells", Decimal(inv.shell)))
    + Optional(inv.misl > 0, Parameter("rockets", Decimal(inv.misl)))
    + Optional(inv.cell > 0, Parameter("cells", Decimal(inv.cell)))
  }

  function WithPowers(params: seq<string>, inv: Inventory): seq<string> {
    params + Optional(inv.berserk, "berserk") + Optional(inv.backpack, "backpack")
    + Optional(inv.invul > 0, Parameter("invul", Decimal(inv.invul)))
  }

  function Parameters(inv: Inventory): seq<string> {
    WithPowers(WithAmmo(WithGear([], inv), inv), inv)
  }

  /** SpawnInvSerialize */
  function Serialized(inv: Inventory): string {
    Join(Parameters(inv), " ")
  }

  method PushIf(params: seq<string>, present: bool, buf: string) returns (r: seq<string>)
    ensures r == params + Optional(present, buf)
  {
    r := params;
    if present {
      r := r + [buf];
    }
  }

  method PushGear(inv: Inventory) returns (params: seq<string>)
    ensures params == WithGear([], inv)
  {
    hide Decimal, WeaponsFrom, Parameter, Optional, WeaponToChar;
    params := [Parameter("health", Decimal(inv.health))];
    params := PushIf(params, inv.armortype > 0 && inv.armortype <= 2 && inv.armorpoints > 0,
                     Parameter(if inv.armortype == 1 then "armor1" else "armor2", Decimal(inv.armorpoints)));
    params := PushIf(params, inv.readyweapon != NUMWEAPONS, Parameter("rweapon", [WeaponToChar(inv.readyweapon)]));
    var weapons := WeaponsStr(inv.weaponowned);
    params := PushIf(params, weapons != "", Parameter("weapons", weapons));
  }

  method PushAmmo(params0: seq<string>, inv: Inventory) returns (params: seq<string>)
    ensures params == WithAmmo(params0, inv)
  {
    params := PushIf(params0, inv.clip > 0, Parameter("bullets", Decimal(inv.clip)));
    params := PushIf(params, inv.shell > 0, Parameter("shells", Decimal(inv.shell)));
    params := PushIf(params, inv.misl > 0, Parameter("rockets", Decimal(inv.misl)));
    params := PushIf(params, inv.cell > 0, Parameter("cells", Decimal(inv.cell)));
  }

  method PushPowers(params0: seq<string>, inv: Inventory) returns (params: seq<string>)
    ensures params == WithPowers(params0, inv)
  {
    params := PushIf(params0, inv.berserk, "berserk");
    params := PushIf(params, inv.backpack, "backpack");
    params := PushIf(params, inv.invul > 0, Parameter("invul", Decimal(inv.invul)));
  }

  method SpawnInvSerialize(inv: Inventory) returns (s: string)
    ensures s == Serialized(inv)
  {
    var params := PushGear(inv);
    params := PushAmmo(params, inv);
    params := PushPowers(params, inv);
    s := Join(params, " ");
  }

  // ----- Parsing

  /** Undefined: a number that does not fit, or a write behind the end of the weapon array. */
  datatype Outcome = Parsed(inv: Inventory) | Rejected | Undefined

  function Max(a: int32, b: int32): int32 {
    if a > b then a else b
  }

  /** The loop of InvSetWeapons; NUMWEAPONS is one behind the end of the array. */
  function OwnedFrom(value: string, owned: Owned): Result<Owned, Outcome>
    decreases |value|
  {
    if value == "" then Success(owned)
    else
      match WeaponFromChar(value[0])
      case None => Failure(Rejected)
      case Some(w) => if w == NUMWEAPONS then Failure(Undefined) else OwnedFrom(value[1..], owned[w := true])
  }

  method SetWeapons(inv: Inventory, value: string) returns (r: Outcome)
    ensures r == SetKey(inv, "weapons", value)
  {
    var newowned: Owned := NOTHING;
    var i := 0;
    while i < |value|
      invariant 0 <= i <= |value| && OwnedFrom(value[i..], newowned) == OwnedFrom(value, NOTHING)
    {
      assert value[i..][1..] == value[i + 1..];
      var owned := WeaponFromChar(value[i]);
      if owned.None? {
        return Rejected;
      }
      if owned.value == NUMWEAPONS {
        return Undefined;
      }
      newowned := newowned[owned.value := true];
      i := i + 1;
    }
    return Parsed(inv.(weaponowned := newowned, isdefault := false));
  }

  predicate IsNumber(key: string) {
    key in {"health", "armor1", "armor2", "bullets", "shells", "rockets", "cells", "invul"}
  }

  /** The InvSet functions that take a number, by key. */
  function SetNumber(inv0: Inventory, key: string, n: int32): Inventory
    requires IsNumber(key)
  {
    var inv := inv0.(isdefault := false);
    if key == "health" then inv.(health := Max(1, n))
    else if key == "armor1" then inv.(armortype := 1, armorpoints := Max(0, n))
    else if key == "armor2" then inv.(armortype := 2, armorpoints := Max(0, n))
    else if key == "bullets" then inv.(clip := Max(0, n))
    else if key == "shells" then inv.(shell := Max(0, n))
    else if key == "rockets" then inv.(misl := Max(0, n))
    else if key == "cells" then inv.(cell := Max(0, n))
    else inv.(invul := n)
  }

  /** The InvSet functions, by key. */
  function SetKey(inv0: Inventory, key: string, value: string): Outcome {
    var inv := inv0.(isdefault := false);
    if key == "rweapon" then
      if value == "" || WeaponFromChar(value[0]).None? then Rejected
      else Parsed(inv.(readyweapon := WeaponFromChar(value[0]).value))
    else if key == "weapons" then
      match OwnedFrom(value, NOTHING)
      case Failure(o) => o
      case Success(owned) => Parsed(inv.(weaponowned := owned))
    else if !IsNumber(key) then Rejected
    else
      match Atoi(value)
      case None => Undefined
      case Some(n) => Parsed(SetNumber(inv, key, n))
  }

  function ParseToken(def: Inventory, inv: Inventory, raw: string, first: bool): Outcome {
    var token := Lower(Strip(raw));
    if token == "default" then Parsed(def)
    else if token == "clear" then Parsed(if first then inv else FRESH)
    else if token == "berserk" then Parsed(inv.(berserk := true, isdefault := false))
    else if token == "backpack" then Parsed(inv.(backpack := true, isdefault := false))
    else
      var param := Tokenized(token, ":");
      if |param| != 2 || param[0] == "" || param[1] == "" then Rejected
      else SetKey(inv, Lower(param[0]), Lower(param[1]))
  }

  function ParseTokens(def: Inventory, inv: Inventory, tokens: seq<string>, first: bool): Outcome
    decreases |tokens|
  {
    if tokens == [] then Parsed(inv)
    else
      match ParseToken(def, inv, tokens[0], first)
      case Parsed(inv') => ParseTokens(def, inv', tokens[1..], false)
      case o => o
  }

  /** What G_SetupSpawnInventory makes of the variable. */
  function Setup(def: Inventory, str: string): Outcome {
    ParseTokens(def, FRESH, Tokenized(str, " "), true)
  }

  class SpawnInventories {
    var gDefaultInv: Inventory
    var gSpawnInv: Inventory

    constructor ()
      ensures gDefaultInv == FRESH && gSpawnInv == FRESH
    {
      gDefaultInv, gSpawnInv := FRESH, FRESH;
    }

    /** Anything that cannot be parsed falls back to the default inventory. */
    method SetupSpawnInventory(str: string, startHealth: int32, startBullets: int32) returns (defined: bool)
      modifies this
      ensures gDefaultInv == DefaultInv(startHealth, startBullets)
      ensures match Setup(gDefaultInv, str)
              case Parsed(inv) => defined && gSpawnInv == inv
              case Rejected => defined && gSpawnInv == gDefaultInv
              case Undefined => !defined
    {
      hide ParseToken, TextTokens.Tokenized;
      gDefaultInv := DefaultInv(startHealth, startBullets);
      var inv := FRESH;
      var tok := TokenizeString(str, " ");
      var i := 0;
      while i < |tok|
        invariant 0 <= i <= |tok| && gDefaultInv == DefaultInv(startHealth, startBullets)
        invariant ParseTokens(gDefaultInv, inv, tok[i..], i == 0) == Setup(gDefaultInv, str)
      {
        assert tok[i..][1..] == tok[i + 1..];
        var parsed := ParseToken(gDefaultInv, inv, tok[i], i == 0);
        match parsed {
          case Rejected =>
            gSpawnInv := gDefaultInv;
            return true;
          case Undefined => return false;
          case Parsed(next) => inv := next;
        }
        i := i + 1;
      }
      gSpawnInv := inv;
      return true;
    }
  }

  // ----- Parsing what was printed

  predicate CleanChar(c: char) {
    '0' <= c <= '9' || 'a' <= c <= 'z' || c == '-'
  }

  predicate Clean(s: string) {
    s != "" && forall i :: 0 <= i < |s| ==> CleanChar(s[i])
  }

  /** Clean text holds no delimiter of one character that is not clean itself. */
  lemma {:induction false} NotFound(s: string, d: char, from: nat)
    requires from <= |s| && d !in s
    ensures FindFrom(s, [d], from) == None
    decreases |s| - from
  {
    if from == |s| {
    } else {
      assert s[from] in s && s[from..from + 1][0] == s[from];
      NotFound(s, d, from + 1);
    }
  }

  lemma {:induction false} FoundAtEnd(s: string, d: char, from: nat)
    requires from <= |s| && d !in s
    ensures FindFrom(s + [d], [d], from) == Some(|s|)
    decreases |s| - from
  {
    if from < |s| {
      assert s[from] in s && (s + [d])[from..from + 1][0] == s[from];
      FoundAtEnd(s, d, from + 1);
    } else {
      assert (s + [d])[|s|..|s| + 1] == [d];
    }
  }

  lemma TwoTokens(key: string, value: string)
    requires Clean(key) && Clean(value)
    ensures Tokenized(Parameter(key, value), ":") == [key, value]
  {
    FoundAtEnd(key, ':', 0);
    NotFound(value, ':', 0);
    assert Fits([value], ":");
    assert [key, value][1..] == [value];
    TokenizedJoined([key, value], ":");
  }

  lemma LowerClean(s: string)
    requires forall i :: 0 <= i < |s| ==> CleanChar(s[i]) || s[i] == ':'
    ensures Lower(s) == s
    ensures s != "" ==> Strip(s) == s
  {
    forall i | 0 <= i < |s|
      ensures Lower(s)[i] == s[i]
    {
      assert CleanChar(s[i]) || s[i] == ':';
    }
    if s != "" {
      StripClean(s);
    }
  }

  lemma StripClean(s: string)
    requires s != "" && (CleanChar(s[0]) || s[0] == ':') && (CleanChar(s[|s| - 1]) || s[|s| - 1] == ':')
    ensures Strip(s) == s
  {
  }

  /** A parameter of clean text is parsed as its key and its value. */
  lemma ParameterParsed(def: Inventory, inv: Inventory, key: string, value: string, first: bool)
    requires Clean(key) && Clean(value)
    ensures ParseToken(def, inv, Parameter(key, value), first) == SetKey(inv, key, value)
  {
    hide SetKey, Tokenized, Lower, Strip, Clean;
    var token := Parameter(key, value);
    CleanParameter(key, value);
    TwoTokens(key, value);
    NoKeyword(token);
  }

  lemma CleanParameter(key: string, value: string)
    requires Clean(key) && Clean(value)
    ensures var token := Parameter(key, value); Lower(token) == token && Strip(token) == token && ':' in token
    ensures Lower(key) == key && Lower(value) == value && key != "" && value != ""
  {
    hide Strip, Lower;
    var token := Parameter(key, value);
    assert token[|key|] == ':';
    LowerClean(token);
    LowerClean(key);
    LowerClean(value);
  }

  lemma NoKeyword(token: string)
    requires ':' in token
    ensures token != "default" && token != "clear" && token != "berserk" && token != "backpack"
  {
  }

  /** What parsing adds when a further list of parameters follows. */
  lemma {:induction false} ParseConcat(def: Inventory, inv: Inventory, a: seq<string>, b: seq<string>, first: bool)
    ensures ParseTokens(def, inv, a + b, first) ==
            match ParseTokens(def, inv, a, first)
            case Parsed(inv') => ParseTokens(def, inv', b, first && a == [])
            case o => o
    decreases |a|
  {
    if a == [] {
      assert a + b == b;
    } else {
      assert (a + b)[1..] == a[1..] + b;
      var o := ParseToken(def, inv, a[0], first);
      if o.Parsed? {
        ParseConcat(def, o.inv, a[1..], b, false);
      }
    }
  }

  predicate PastTheEnd(value: string, i: nat) {
    i < |value| && WeaponFromChar(value[i]) == Some(NUMWEAPONS)
  }

  predicate Weapons(s: string) {
    forall i :: 0 <= i < |s| ==> WeaponFromChar(s[i]).Some? && WeaponFromChar(s[i]).value != NUMWEAPONS
  }

  /** The weapon array is overrun exactly when the character for no weapon follows nothing but weapons; and the
      weapons are set exactly when there is nothing else. */
  lemma {:induction false} OverrunIff(value: string, owned: Owned)
    ensures OwnedFrom(value, owned) == Failure(Undefined) <==> exists i: nat :: PastTheEnd(value, i) && Weapons(value[..i])
    ensures OwnedFrom(value, owned).Success? <==> Weapons(value)
    decreases |value|
  {
    if value == "" {
    } else {
      var w := WeaponFromChar(value[0]);
      if w.Some? && w.value != NUMWEAPONS {
        OverrunIff(value[1..], owned[w.value := true]);
        WeaponsTail(value, |value|);
        if i: nat :| PastTheEnd(value, i) && Weapons(value[..i]) {
          WeaponsTail(value, i);
          assert PastTheEnd(value[1..], i - 1) && Weapons(value[1..][..i - 1]);
        }
        if i: nat :| PastTheEnd(value[1..], i) && Weapons(value[1..][..i]) {
          WeaponsTail(value, i + 1);
          assert PastTheEnd(value, i + 1);
        }
      } else if w.Some? {
        assert PastTheEnd(value, 0) && Weapons(value[..0]);
      } else {
        forall i: nat | PastTheEnd(value, i)
          ensures !Weapons(value[..i])
        {
          assert i > 0 && value[..i][0] == value[0];
        }
      }
    }
  }

  lemma WeaponsTail(value: string, i: nat)
    requires 0 < i <= |value| && WeaponFromChar(value[0]).Some? && WeaponFromChar(value[0]).value != NUMWEAPONS
    ensures Weapons(value[..i]) <==> Weapons(value[1..][..i - 1])
    ensures i == |value| ==> value[..i] == value && value[1..][..i - 1] == value[1..]
  {
    assert value[..i] == [value[0]] + value[1..][..i - 1];
  }

  lemma WeaponCharBack(i: nat)
    requires i < 9
    ensures WeaponFromChar(WeaponToChar(i)) == Some(i)
  {
  }

  lemma OwnedFromNone(done: Owned)
    ensures OwnedFrom("", done) == Success(done)
  {
  }

  lemma OwnedFromFirst(c: char, i: nat, rest: string, done: Owned)
    requires i < 9 && WeaponFromChar(c) == Some(i)
    ensures OwnedFrom([c] + rest, done) == OwnedFrom(rest, done[i := true])
  {
    hide WeaponFromChar;
    assert ([c] + rest)[1..] == rest;
  }

  /** Reading the weapons back one by one. */
  lemma {:induction false} OwnedFromWeapons(owned: Owned, i: nat, done: Owned)
    requires i <= 9
    requires forall k :: 0 <= k < 9 ==> done[k] == (k < i && owned[k])
    ensures OwnedFrom(WeaponsFrom(owned, i), done) == Success(owned)
    decreases 9 - i
  {
    hide OwnedFrom, WeaponToChar, WeaponFromChar, CleanChar;
    if i == 9 {
      assert done == owned;
      OwnedFromNone(done);
    } else if owned[i] {
      WeaponCharBack(i);
      OwnedFromFirst(WeaponToChar(i), i, WeaponsFrom(owned, i + 1), done);
      OwnedFromWeapons(owned, i + 1, done[i := true]);
    } else {
      assert WeaponsFrom(owned, i) == WeaponsFrom(owned, i + 1);
      OwnedFromWeapons(owned, i + 1, done);
    }
  }

  // ----- The effect of each printed parameter

  /** A parameter that is parsed to a change of the inventory, wherever it stands. */
  ghost predicate Gives(def: Inventory, inv: Inventory, parameter: string, after: Inventory) {
    forall first :: ParseToken(def, inv, parameter, first) == Parsed(after)
  }

  lemma NumberGives(def: Inventory, inv: Inventory, key: string, n: int32)
    requires IsNumber(key)
    ensures Gives(def, inv, Parameter(key, Decimal(n)), SetNumber(inv, key, n))
  {
    hide ParseToken, Atoi, Decimal, SetNumber;
    AtoiDecimal(n);
    assert Clean(key);
    forall first
      ensures ParseToken(def, inv, Parameter(key, Decimal(n)), first) == Parsed(SetNumber(inv, key, n))
    {
      ParameterParsed(def, inv, key, Decimal(n), first);
      KeyedNumber(inv, key, Decimal(n), n);
    }
  }

  lemma KeyedNumber(inv: Inventory, key: string, value: string, n: int32)
    requires IsNumber(key) && Atoi(value) == Some(n)
    ensures SetKey(inv, key, value) == Parsed(SetNumber(inv, key, n))
  {
    hide Atoi, SetNumber;
    SetNumberAgain(inv, key, n);
  }

  lemma SetNumberAgain(inv: Inventory, key: string, n: int32)
    requires IsNumber(key)
    ensures SetNumber(inv.(isdefault := false), key, n) == SetNumber(inv, key, n)
  {
  }

  lemma ReadyGives(def: Inventory, inv: Inventory, w: Weapon)
    requires w != NUMWEAPONS
    ensures Gives(def, inv, Parameter("rweapon", [WeaponToChar(w)]), inv.(readyweapon := w, isdefault := false))
  {
    hide ParseToken;
    var value := [WeaponToChar(w)];
    assert WeaponFromChar(value[0]) == Some(w);
    assert Clean("rweapon") && Clean(value);
    forall first
      ensures ParseToken(def, inv, Parameter("rweapon", value), first) == Parsed(inv.(readyweapon := w, isdefault := false))
    {
      ParameterParsed(def, inv, "rweapon", value, first);
    }
  }

  lemma WeaponsGive(def: Inventory, inv: Inventory, owned: Owned)
    requires WeaponsFrom(owned, 0) != ""
    ensures Gives(def, inv, Parameter("weapons", WeaponsFrom(owned, 0)), inv.(weaponowned := owned, isdefault := false))
  {
    hide ParseToken, WeaponsFrom;
    var value := WeaponsFrom(owned, 0);
    OwnedFromWeapons(owned, 0, NOTHING);
    assert Clean("weapons") && Clean(value);
    forall first
      ensures ParseToken(def, inv, Parameter("weapons", value), first) == Parsed(inv.(weaponowned := owned, isdefault := false))
    {
      ParameterParsed(def, inv, "weapons", value, first);
    }
  }

  /** No weapons are printed as nothing. */
  lemma {:induction false} NoWeapons(owned: Owned, i: nat)
    requires i <= 9 && WeaponsFrom(owned, i) == ""
    ensures forall k :: i <= k < 9 ==> !owned[k]
    decreases 9 - i
  {
    if i == 9 {
    } else {
      NoWeapons(owned, i + 1);
    }
  }

  /** Adding an optional parameter to a list that has been parsed. */
  lemma AddOptional(def: Inventory, params: seq<string>, so: Inventory, present: bool, parameter: string, after: Inventory)
    requires ParseTokens(def, FRESH, params, true) == Parsed(so) && params != []
    requires if present then Gives(def, so, parameter, after) else after == so
    ensures ParseTokens(def, FRESH, params + Optional(present, parameter), true) == Parsed(after)
    ensures params + Optional(present, parameter) != []
  {
    hide ParseToken;
    ParseConcat(def, FRESH, params, Optional(present, parameter), true);
  }

  // ----- Round trip

  /** What is left of an inventory that has been printed and parsed. */
  function Normalized(inv: Inventory): Inventory {
    Inventory(false, Max(1, inv.health), if Armored(inv) then inv.armorpoints else 0, if Armored(inv) then inv.armortype else 0,
              inv.readyweapon, inv.weaponowned, Max(0, inv.clip), Max(0, inv.shell), Max(0, inv.cell), Max(0, inv.misl),
              inv.berserk, inv.backpack, Max(0, inv.invul))
  }

  lemma HealthFirst(def: Inventory, inv: Inventory)
    ensures ParseTokens(def, FRESH, [] + [Parameter("health", Decimal(inv.health))], true) ==
            Parsed(FRESH.(health := Max(1, inv.health)))
  {
    hide ParseToken;
    NumberGives(def, FRESH, "health", inv.health);
    assert [] + [Parameter("health", Decimal(inv.health))] == [Parameter("health", Decimal(inv.health))];
  }

  lemma GearParsed(def: Inventory, inv: Inventory)
    ensures var n := Normalized(inv);
            ParseTokens(def, FRESH, WithGear([], inv), true) ==
            Parsed(FRESH.(health := n.health, armorpoints := n.armorpoints, armortype := n.armortype,
                          readyweapon := n.readyweapon, weaponowned := n.weaponowned))
    ensures WithGear([], inv) != []
  {
    hide ParseTokens, Decimal, WeaponToChar, Parameter, WeaponsFrom, Gives, Optional;
    var weapons := WeaponsFrom(inv.weaponowned, 0);
    HealthFirst(def, inv);
    var p0, s0 := [] + [Parameter("health", Decimal(inv.health))], FRESH.(health := Max(1, inv.health));
    NumberGives(def, s0, ArmorKey(inv), inv.armorpoints);
    var s1 := if Armored(inv) then s0.(armortype := inv.armortype, armorpoints := inv.armorpoints) else s0;
    AddOptional(def, p0, s0, Armored(inv), Parameter(ArmorKey(inv), Decimal(inv.armorpoints)), s1);
    var p1 := p0 + Optional(Armored(inv), Parameter(ArmorKey(inv), Decimal(inv.armorpoints)));
    if inv.readyweapon != NUMWEAPONS {
      ReadyGives(def, s1, inv.readyweapon);
    }
    var s2 := s1.(readyweapon := inv.readyweapon);
    AddOptional(def, p1, s1, inv.readyweapon != NUMWEAPONS, Parameter("rweapon", [WeaponToChar(inv.readyweapon)]), s2);
    var p2 := p1 + Optional(inv.readyweapon != NUMWEAPONS, Parameter("rweapon", [WeaponToChar(inv.readyweapon)]));
    if weapons != "" {
      WeaponsGive(def, s2, inv.weaponowned);
    } else {
      NoWeapons(inv.weaponowned, 0);
      assert inv.weaponowned == NOTHING;
    }
    AddOptional(def, p2, s2, weapons != "", Parameter("weapons", weapons), s2.(weaponowned := inv.weaponowned));
  }

  lemma AddNumber(def: Inventory, params: seq<string>, so: Inventory, key: string, n: int32)
    requires ParseTokens(def, FRESH, params, true) == Parsed(so) && params != [] && IsNumber(key)
    ensures var longer := params + Optional(n > 0, Parameter(key, Decimal(n)));
            longer != [] && ParseTokens(def, FRESH, longer, true) == Parsed(if n > 0 then SetNumber(so, key, n) else so)
  {
    hide ParseTokens, Decimal, Parameter, Gives, Optional, SetNumber;
    NumberGives(def, so, key, n);
    AddOptional(def, params, so, n > 0, Parameter(key, Decimal(n)), if n > 0 then SetNumber(so, key, n) else so);
  }

  lemma AmmoParsed(def: Inventory, params: seq<string>, so: Inventory, inv: Inventory)
    requires ParseTokens(def, FRESH, params, true) == Parsed(so) && params != []
    requires !so.isdefault && so.clip == so.shell == so.cell == so.misl == 0
    ensures var n := Normalized(inv);
            ParseTokens(def, FRESH, WithAmmo(params, inv), true) ==
            Parsed(so.(clip := n.clip, shell := n.shell, misl := n.misl, cell := n.cell))
    ensures WithAmmo(params, inv) != []
  {
    var s1 := so.(clip := Max(0, inv.clip));
    var s2 := s1.(shell := Max(0, inv.shell));
    var s3 := s2.(misl := Max(0, inv.misl));
    AmmoSet(so, inv);
    hide ParseTokens, SetNumber, IsNumber;
    AmmoChain(def, params, inv, so, s1, s2, s3, s3.(cell := Max(0, inv.cell)));
  }

  lemma AmmoChain(def: Inventory, params: seq<string>, inv: Inventory, so: Inventory, s1: Inventory, s2: Inventory,
                  s3: Inventory, s4: Inventory)
    requires ParseTokens(def, FRESH, params, true) == Parsed(so) && params != []
    requires IsNumber("bullets") && IsNumber("shells") && IsNumber("rockets") && IsNumber("cells")
    requires s1 == if inv.clip > 0 then SetNumber(so, "bullets", inv.clip) else so
    requires s2 == if inv.shell > 0 then SetNumber(s1, "shells", inv.shell) else s1
    requires s3 == if inv.misl > 0 then SetNumber(s2, "rockets", inv.misl) else s2
    requires s4 == if inv.cell > 0 then SetNumber(s3, "cells", inv.cell) else s3
    ensures ParseTokens(def, FRESH, WithAmmo(params, inv), true) == Parsed(s4) && WithAmmo(params, inv) != []
  {
    hide ParseTokens, Decimal, Parameter, Optional, SetNumber, IsNumber;
    AddNumber(def, params, so, "bullets", inv.clip);
    var p1 := params + Optional(inv.clip > 0, Parameter("bullets", Decimal(inv.clip)));
    AddNumber(def, p1, s1, "shells", inv.shell);
    var p2 := p1 + Optional(inv.shell > 0, Parameter("shells", Decimal(inv.shell)));
    AddNumber(def, p2, s2, "rockets", inv.misl);
    var p3 := p2 + Optional(inv.misl > 0, Parameter("rockets", Decimal(inv.misl)));
    AddNumber(def, p3, s3, "cells", inv.cell);
  }

  /** What each number does to an inventory that had none of it. */
  lemma AmmoSet(so: Inventory, inv: Inventory)
    requires !so.isdefault && so.clip == so.shell == so.cell == so.misl == 0
    ensures IsNumber("bullets") && IsNumber("shells") && IsNumber("rockets") && IsNumber("cells")
    ensures var s1 := so.(clip := Max(0, inv.clip));
            var s2 := s1.(shell := Max(0, inv.shell));
            var s3 := s2.(misl := Max(0, inv.misl));
            s1 == (if inv.clip > 0 then SetNumber(so, "bullets", inv.clip) else so) &&
            s2 == (if inv.shell > 0 then SetNumber(s1, "shells", inv.shell) else s1) &&
            s3 == (if inv.misl > 0 then SetNumber(s2, "rockets", inv.misl) else s2) &&
            s3.(cell := Max(0, inv.cell)) == (if inv.cell > 0 then SetNumber(s3, "cells", inv.cell) else s3)
  {
  }

  lemma FlagsGive(def: Inventory, inv: Inventory)
    ensures Gives(def, inv, "berserk", inv.(berserk := true, isdefault := false))
    ensures Gives(def, inv, "backpack", inv.(backpack := true, isdefault := false))
  {
    hide Strip, Lower, Tokenized;
    LowerClean("berserk");
    LowerClean("backpack");
  }

  lemma PowersParsed(def: Inventory, params: seq<string>, so: Inventory, inv: Inventory)
    requires ParseTokens(def, FRESH, params, true) == Parsed(so) && params != []
    requires !so.isdefault && !so.berserk && !so.backpack && so.invul == 0
    ensures var n := Normalized(inv);
            ParseTokens(def, FRESH, WithPowers(params, inv), true) ==
            Parsed(so.(berserk := n.berserk, backpack := n.backpack, invul := n.invul))
  {
    hide ParseTokens, Decimal, Parameter, Gives, Optional;
    FlagsGive(def, so);
    var s1 := so.(berserk := inv.berserk);
    AddOptional(def, params, so, inv.berserk, "berserk", s1);
    var p1 := params + Optional(inv.berserk, "berserk");
    FlagsGive(def, s1);
    var s2 := s1.(backpack := inv.backpack);
    AddOptional(def, p1, s1, inv.backpack, "backpack", s2);
    var p2 := p1 + Optional(inv.backpack, "backpack");
    NumberGives(def, s2, "invul", inv.invul);
    AddOptional(def, p2, s2, inv.invul > 0, Parameter("invul", Decimal(inv.invul)), s2.(invul := Max(0, inv.invul)));
  }

  // ----- The list comes apart at its spaces

  predicate SpaceFree(params: seq<string>) {
    forall i :: 0 <= i < |params| ==> ' ' !in params[i] && params[i] != ""
  }

  lemma {:induction false} SpaceFreeFits(params: seq<string>)
    requires params != [] && SpaceFree(params)
    ensures Fits(params, " ")
    decreases |params|
  {
    if |params| == 1 {
      NotFound(params[0], ' ', 0);
    } else {
      FoundAtEnd(params[0], ' ', 0);
      assert SpaceFree(params[1..]) by {
        forall i | 0 <= i < |params[1..]|
          ensures ' ' !in params[1..][i] && params[1..][i] != ""
        {
          assert params[1..][i] == params[i + 1];
        }
      }
      SpaceFreeFits(params[1..]);
    }
  }

  lemma AppendSpaceFree(params: seq<string>, present: bool, parameter: string)
    requires SpaceFree(params) && (present ==> ' ' !in parameter && parameter != "")
    ensures SpaceFree(params + Optional(present, parameter))
  {
  }

  lemma ParameterSpaceFree(key: string, value: string)
    requires ' ' !in key && Clean(value)
    ensures ' ' !in Parameter(key, value) && Parameter(key, value) != ""
  {
  }

  lemma AppendParameter(params: seq<string>, present: bool, key: string, value: string)
    requires SpaceFree(params) && ' ' !in key && (present ==> Clean(value))
    ensures SpaceFree(params + Optional(present, Parameter(key, value)))
  {
    hide Parameter;
    if present {
      ParameterSpaceFree(key, value);
    }
    AppendSpaceFree(params, present, Parameter(key, value));
  }

  lemma GearSpaceFree(inv: Inventory)
    ensures SpaceFree(WithGear([], inv)) && WithGear([], inv) != []
  {
    hide SpaceFree, Decimal, WeaponsFrom, Parameter, Optional;
    var weapons := WeaponsFrom(inv.weaponowned, 0);
    HealthSpaceFree(inv);
    var p0 := [] + [Parameter("health", Decimal(inv.health))];
    AppendParameter(p0, Armored(inv), ArmorKey(inv), Decimal(inv.armorpoints));
    var p1 := p0 + Optional(Armored(inv), Parameter(ArmorKey(inv), Decimal(inv.armorpoints)));
    var ready := inv.readyweapon != NUMWEAPONS;
    assert Clean([WeaponToChar(inv.readyweapon)]);
    AppendParameter(p1, ready, "rweapon", [WeaponToChar(inv.readyweapon)]);
    var p2 := p1 + Optional(ready, Parameter("rweapon", [WeaponToChar(inv.readyweapon)]));
    AppendParameter(p2, weapons != "", "weapons", weapons);
  }

  lemma HealthSpaceFree(inv: Inventory)
    ensures SpaceFree([] + [Parameter("health", Decimal(inv.health))])
  {
    ParameterSpaceFree("health", Decimal(inv.health));
  }

  lemma AmmoSpaceFree(params: seq<string>, inv: Inventory)
    requires SpaceFree(params) && params != []
    ensures SpaceFree(WithAmmo(params, inv)) && WithAmmo(params, inv) != []
  {
    hide SpaceFree, Decimal, Parameter, Optional;
    AppendParameter(params, inv.clip > 0, "bullets", Decimal(inv.clip));
    var p1 := params + Optional(inv.clip > 0, Parameter("bullets", Decimal(inv.clip)));
    AppendParameter(p1, inv.shell > 0, "shells", Decimal(inv.shell));
    var p2 := p1 + Optional(inv.shell > 0, Parameter("shells", Decimal(inv.shell)));
    AppendParameter(p2, inv.misl > 0, "rockets", Decimal(inv.misl));
    var p3 := p2 + Optional(inv.misl > 0, Parameter("rockets", Decimal(inv.misl)));
    AppendParameter(p3, inv.cell > 0, "cells", Decimal(inv.cell));
  }

  lemma PowersSpaceFree(params: seq<string>, inv: Inventory)
    requires SpaceFree(params) && params != []
    ensures SpaceFree(WithPowers(params, inv)) && WithPowers(params, inv) != []
  {
    hide SpaceFree, Decimal, Parameter, Optional;
    AppendSpaceFree(params, inv.berserk, "berserk");
    var p1 := params + Optional(inv.berserk, "berserk");
    AppendSpaceFree(p1, inv.backpack, "backpack");
    AppendParameter(p1 + Optional(inv.backpack, "backpack"), inv.invul > 0, "invul", Decimal(inv.invul));
  }

  /** The printed list comes apart into its parameters. */
  lemma SerializedTokens(inv: Inventory)
    ensures Tokenized(Serialized(inv), " ") == Parameters(inv)
  {
    hide SpaceFree, WithGear, WithAmmo, WithPowers, Fits;
    GearSpaceFree(inv);
    AmmoSpaceFree(WithGear([], inv), inv);
    PowersSpaceFree(WithAmmo(WithGear([], inv), inv), inv);
    SpaceFreeFits(Parameters(inv));
    NotBlank(Parameters(inv));
    TokenizedJoined(Parameters(inv), " ");
  }

  lemma NotBlank(params: seq<string>)
    requires SpaceFree(params)
    ensures params != [""]
  {
    assert params != [] ==> params[0] != "";
  }

  /** Parsing what was printed gives the normalized inventory, for every inventory. */
  lemma ParseSerialized(def: Inventory, inv: Inventory)
    ensures Setup(def, Serialized(inv)) == Parsed(Normalized(inv))
  {
    hide WithGear, WithAmmo, WithPowers, ParseTokens, Tokenized, Join;
    SerializedTokens(inv);
    GearParsed(def, inv);
    var n := Normalized(inv);
    var s1 := FRESH.(health := n.health, armorpoints := n.armorpoints, armortype := n.armortype,
                     readyweapon := n.readyweapon, weaponowned := n.weaponowned);
    AmmoParsed(def, WithGear([], inv), s1, inv);
    var s2 := s1.(clip := n.clip, shell := n.shell, misl := n.misl, cell := n.cell);
    PowersParsed(def, WithAmmo(WithGear([], inv), inv), s2, inv);
  }

  /** The inventories that lose nothing. */
  predicate Normal(inv: Inventory) {
    !inv.isdefault && inv.health >= 1 && inv.clip >= 0 && inv.shell >= 0 && inv.cell >= 0 && inv.misl >= 0 && inv.invul >= 0 &&
    if inv.armortype == 0 then inv.armorpoints == 0 else inv.armortype <= 2 && inv.armortype > 0 && inv.armorpoints > 0
  }

  /** Printing and parsing restores exactly the normal inventories. */
  lemma RoundTripIffNormal(def: Inventory, inv: Inventory)
    ensures Setup(def, Serialized(inv)) == Parsed(inv) <==> Normal(inv)
    ensures Normal(Normalized(inv))
  {
    hide Setup, Serialized;
    ParseSerialized(def, inv);
  }

  /** Printing what was parsed from a printed inventory prints the same, unless it had no health left. */
  lemma SerializeAgain(inv: Inventory)
    ensures Serialized(Normalized(inv)) == Serialized(inv) <==> inv.health >= 1
  {
    hide Parameters, Normalized, Decimal, Parameter;
    if inv.health >= 1 {
      SamePrint(inv);
    } else {
      SerializedTokens(inv);
      SerializedTokens(Normalized(inv));
      FirstParameter(inv);
      FirstParameter(Normalized(inv));
      HealthPrintsDiffer(inv);
    }
  }

  lemma HealthPrintsDiffer(inv: Inventory)
    requires inv.health < 1
    ensures Parameter("health", Decimal(Normalized(inv).health)) != Parameter("health", Decimal(inv.health))
  {
    hide Decimal, Parameter, Atoi;
    AtoiDecimal(inv.health);
    AtoiDecimal(1);
    DifferentValues("health", Decimal(1), Decimal(inv.health));
  }

  lemma SamePrint(inv: Inventory)
    requires inv.health >= 1
    ensures Serialized(Normalized(inv)) == Serialized(inv)
  {
    SameGear(inv);
    SameAmmo(WithGear([], inv), inv);
    SamePowers(WithAmmo(WithGear([], inv), inv), inv);
    hide WithGear, WithAmmo, WithPowers, Normalized, Join;
  }

  lemma SameGear(inv: Inventory)
    requires inv.health >= 1
    ensures WithGear([], Normalized(inv)) == WithGear([], inv)
  {
    hide Decimal, Parameter, WeaponsFrom;
  }

  lemma SameAmmo(params: seq<string>, inv: Inventory)
    ensures WithAmmo(params, Normalized(inv)) == WithAmmo(params, inv)
  {
    hide Decimal, Parameter;
  }

  lemma SamePowers(params: seq<string>, inv: Inventory)
    ensures WithPowers(params, Normalized(inv)) == WithPowers(params, inv)
  {
    hide Decimal, Parameter;
  }

  lemma FirstParameter(inv: Inventory)
    ensures Parameters(inv)[0] == Parameter("health", Decimal(inv.health))
  {
    hide Decimal, Parameter, WeaponsFrom;
  }

  lemma DifferentValues(key: string, a: string, b: string)
    requires a != b
    ensures Parameter(key, a) != Parameter(key, b)
  {
    assert Parameter(key, a)[|key| + 1..] == a && Parameter(key, b)[|key| + 1..] == b;
  }

  lemma KeyHasHealth(inv: Inventory, key: string, value: string)
    requires inv.health >= 1
    ensures var o := SetKey(inv, key, value); o.Parsed? ==> o.inv.health >= 1
    decreases |value|
  {
    OwnedFromFails(value, NOTHING);
  }

  lemma {:induction false} OwnedFromFails(value: string, owned: Owned)
    ensures var r := OwnedFrom(value, owned); r.Failure? ==> !r.error.Parsed?
    decreases |value|
  {
    if value == "" || WeaponFromChar(value[0]).None? || WeaponFromChar(value[0]).value == NUMWEAPONS {
    } else {
      OwnedFromFails(value[1..], owned[WeaponFromChar(value[0]).value := true]);
    }
  }

  lemma TokenHasHealth(def: Inventory, inv: Inventory, raw: string, first: bool)
    requires def.health >= 1 && inv.health >= 1
    ensures var o := ParseToken(def, inv, raw, first); o.Parsed? ==> o.inv.health >= 1
  {
    hide SetKey, Lower, Strip, Tokenized;
    var param := Tokenized(Lower(Strip(raw)), ":");
    if |param| == 2 {
      KeyHasHealth(inv, Lower(param[0]), Lower(param[1]));
    }
  }

  /** Every inventory the parser can produce has health, if the default one has. */
  lemma {:induction false} ParsedHasHealth(def: Inventory, inv: Inventory, tokens: seq<string>, first: bool)
    requires def.health >= 1 && inv.health >= 1
    ensures var o := ParseTokens(def, inv, tokens, first); o.Parsed? ==> o.inv.health >= 1
    decreases |tokens|
  {
    if tokens == [] {
    } else {
      hide ParseToken;
      var o := ParseToken(def, inv, tokens[0], first);
      TokenHasHealth(def, inv, tokens[0], first);
      if o.Parsed? {
        ParsedHasHealth(def, o.inv, tokens[1..], false);
      }
    }
  }

  /** So printing, parsing and printing again is printing, for every inventory the parser can produce. */
  lemma PrintIsStable(def: Inventory, str: string)
    requires def.health >= 1 && Setup(def, str).Parsed?
    ensures var inv := Setup(def, str).inv;
            Setup(def, Serialized(inv)).Parsed? && Serialized(Setup(def, Serialized(inv)).inv) == Serialized(inv)
  {
    hide ParseTokens, Serialized, Tokenized;
    ParsedHasHealth(def, FRESH, Tokenized(str, " "), true);
    var inv := Setup(def, str).inv;
    ParseSerialized(def, inv);
    SerializeAgain(inv);
  }
}