/**
 * The argument-factory registry of CommandManager: a map from a type name to a
 * converter, filled by the static initializer with `string`, `number`, `float`,
 * `user` and the aliases `integer` and `int` of `number`.
 */
module ArgumentFactories {
  import opened Wrappers
  import opened Commands

  /** A converter: the identity, Integer.parseInt, or one this model does not see into (float, user). */
  datatype Factory = Identity | ParseInt | Foreign(name: string)

  /** Converters outside this model, by factory name and argument. */
  type ForeignConverter = (string, string) -> Result<Value, Error>

  const IntMin: int := -0x8000_0000
  const IntMax: int := 0x7FFF_FFFF

  predicate IsDigit(c: char)
  {
    '0' <= c <= '9'
  }

  predicate AllDigits(s: string)
  {
    forall k :: 0 <= k < |s| ==> IsDigit(s[k])
  }

  /** The number a string of decimal digits denotes. */
  function DigitsValue(ds: string): nat
    requires AllDigits(ds)
  {
    if ds == [] then 0 else DigitsValue(ds[..|ds| - 1]) * 10 + (ds[|ds| - 1] as int - '0' as int)
  }

  /** The argument without its sign, if it has one. */
  function Unsigned(arg: string): string
  {
    if |arg| > 0 && (arg[0] == '-' || arg[0] == '+') then arg[1..] else arg
  }

  /**
   * Integer.parseInt, with failures turned into BadArgumentType(arg, "number"):
   * an optional sign, at least one decimal digit and nothing else, and a value
   * that fits in 32 bits.
   */
  function ParseNumber(arg: string): (r: Result<Value, Error>)
    ensures r.Success? ==> r.value.IntValue? && IntMin <= r.value.n <= IntMax
    ensures r.Failure? ==> r.error == BadArgumentType(arg, "number")
    ensures r.Success? <==> (
      && Unsigned(arg) != [] && AllDigits(Unsigned(arg))
      && if arg[0] == '-' then DigitsValue(Unsigned(arg)) <= -IntMin else DigitsValue(Unsigned(arg)) <= IntMax)
    ensures r.Success? ==> (
      r.value.n == if arg[0] == '-' then 0 - DigitsValue(Unsigned(arg)) as int else DigitsValue(Unsigned(arg)) as int)
  {
    var digits := Unsigned(arg);
    if digits == [] || !AllDigits(digits) then
      Failure(BadArgumentType(arg, "number"))
    else
      var magnitude: int := DigitsValue(digits);
      var v := if arg[0] == '-' then -magnitude else magnitude;
      if IntMin <= v <= IntMax then Success(IntValue(v)) else Failure(BadArgumentType(arg, "number"))
  }

  /** Integer.toString of a natural number. */
  function NatDigits(n: nat): (ds: string)
    ensures ds != [] && AllDigits(ds)
  {
    var last := ['0' + (n % 10) as char];
    if n < 10 then last else NatDigits(n / 10) + last
  }

  /** Integer.toString: the decimal digits, with a minus sign when negative. */
  function FormatInt(v: int): string
  {
    if v < 0 then "-" + NatDigits(-v) else NatDigits(v)
  }

  lemma {:induction false} DigitsValueOfNatDigits(n: nat)
    ensures DigitsValue(NatDigits(n)) == n
  {
    var ds := NatDigits(n);
    if n >= 10 {
      DigitsValueOfNatDigits(n / 10);
      assert ds[..|ds| - 1] == NatDigits(n / 10);
    }
  }

  /** Every 32-bit integer written out by Integer.toString parses back to itself. */
  lemma ParseNumberFormatInt(v: int)
    requires IntMin <= v <= IntMax
    ensures ParseNumber(FormatInt(v)) == Success(IntValue(v))
  {
    if v < 0 {
      DigitsValueOfNatDigits(-v);
      assert Unsigned(FormatInt(v)) == NatDigits(-v);
    } else {
      DigitsValueOfNatDigits(v);
    }
  }

  /** Inputs Integer.parseInt accepts and rejects: signs, leading zeros, the 32-bit bounds. */
  lemma ParseNumberExamples()
    ensures ParseNumber("42") == Success(IntValue(42))
    ensures ParseNumber("+7") == Success(IntValue(7))
    ensures ParseNumber("-007") == Success(IntValue(-7))
    ensures ParseNumber("") == Failure(BadArgumentType("", "number"))
    ensures ParseNumber("-") == Failure(BadArgumentType("-", "number"))
    ensures ParseNumber("4a") == Failure(BadArgumentType("4a", "number"))
    ensures ParseNumber(" 4") == Failure(BadArgumentType(" 4", "number"))
  {
    assert DigitsValue("4") == 4;
    assert DigitsValue("42") == 42;
    assert DigitsValue("0") == 0 && DigitsValue("00") == 0;
    assert DigitsValue("007") == 7;
    assert !IsDigit('a') && !IsDigit(' ');
  }

  /** The 32-bit bounds: -2147483648 and 2147483647 parse, one past either does not. */
  lemma ParseNumberBounds()
    ensures ParseNumber(FormatInt(IntMin)) == Success(IntValue(IntMin))
    ensures ParseNumber(FormatInt(IntMax)) == Success(IntValue(IntMax))
    ensures ParseNumber(FormatInt(IntMax + 1)).Failure?
    ensures ParseNumber(FormatInt(IntMin - 1)).Failure?
  {
    ParseNumberFormatInt(IntMin);
    ParseNumberFormatInt(IntMax);
    DigitsValueOfNatDigits(IntMax + 1);
    DigitsValueOfNatDigits(-(IntMin - 1));
    assert Unsigned(FormatInt(IntMin - 1)) == NatDigits(-(IntMin - 1));
  }

  /** What a factory's `process` returns for one argument. */
  function Apply(f: Factory, arg: string, foreign: ForeignConverter): Result<Value, Error>
  {
    match f
    case Identity => Success(StringValue(arg))
    case ParseInt => ParseNumber(arg)
    case Foreign(name) => foreign(name, arg)
  }

  /**
   * getArgumentFactory on a snapshot of the registry: absent when nothing is
   * registered under `key`.
   */
  function Lookup(factories: map<string, Factory>, key: string): (r: Option<Factory>)
    ensures r.Some? <==> key in factories
    ensures r.Some? ==> r.value == factories[key]
  {
    if key in factories then Some(factories[key]) else None
  }

  /** The registry as the static initializer leaves it. */
  function BuiltIns(): map<string, Factory>
  {
    map["string" := Identity, "number" := ParseInt, "float" := Foreign("float"),
        "user" := Foreign("user"), "integer" := ParseInt, "int" := ParseInt]
  }

  /** `int` and `integer` are the `number` factory itself; `string` is the identity; other names are absent. */
  lemma BuiltInFactories(arg: string, foreign: ForeignConverter, other: string)
    requires other !in {"string", "number", "float", "user", "integer", "int"}
    ensures Lookup(BuiltIns(), "int") == Lookup(BuiltIns(), "integer") == Lookup(BuiltIns(), "number") == Some(ParseInt)
    ensures Apply(BuiltIns()["int"], arg, foreign) == Apply(BuiltIns()["number"], arg, foreign) == ParseNumber(arg)
    ensures Apply(BuiltIns()["string"], arg, foreign) == Success(StringValue(arg))
    ensures Lookup(BuiltIns(), other) == None
  {
  }

  /**
   * The static `argumentFactories` map. registerArgumentFactory is Register;
   * getArgumentFactory is Lookup on the current map.
   */
  class Registry {
    var factories: map<string, Factory>

    /** The static initializer. */
    constructor ()
      ensures factories == BuiltIns()
    {
      factories := map[];
      new;
      Register("string", Identity);
      Register("number", ParseInt);
      Register("float", Foreign("float"));
      Register("user", Foreign("user"));
      var number := Lookup(factories, "number");
      Register("integer", number.value);
      Register("int", number.value);
    }

    /** registerArgumentFactory: a name registered again is overwritten. */
    method Register(name: string, factory: Factory)
      modifies this
      ensures factories == old(factories)[name := factory]
      ensures Lookup(factories, name) == Some(factory)
      ensures forall key :: key != name ==> Lookup(factories, key) == Lookup(old(factories), key)
    {
      factories := factories[name := factory];
    }
  }
}
