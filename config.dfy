/**
 * Start-up configuration: port, host group and instance, each taken from
 * its command-line flag if given, else from its environment variable,
 * else from a built-in default.
 */
module Config {
  import opened Wrappers

  type u16 = x: int | 0 <= x < 0x1_0000

  /** The parsed command line (parsing itself is the argument library's). */
  datatype Args = Args(oneshot: bool, port: Option<u16>, group: Option<string>, instance: Option<string>)

  /** The settings the agent runs with. */
  datatype Settings = Settings(oneshot: bool, port: u16, group: string, instance: string)

  const DefaultPort: u16 := 0
  const DefaultLabel: string := "test"

  /** `env::var(name)`: the variable's value, or nothing when it is unset. */
  function EnvVar(env: map<string, string>, name: string): Option<string>
  {
    if name in env then Some(env[name]) else None
  }

  predicate IsDigit(c: char)
  {
    '0' <= c <= '9'
  }

  predicate AllDigits(s: string)
  {
    forall i :: 0 <= i < |s| ==> IsDigit(s[i])
  }

  /** The value of a string of decimal digits, most significant first. */
  function DigitsValue(s: string): nat
    requires AllDigits(s)
  {
    if s == [] then 0 else DigitsValue(s[..|s| - 1]) * 10 + (s[|s| - 1] as int - '0' as int)
  }

  /**
   * `str::parse::<u16>`: an optional leading `+` followed by at least one
   * decimal digit, with a value that fits in 16 bits; nothing else (no
   * sign `-`, no blanks) is accepted.
   */
  function ParseU16(s: string): Option<u16>
  {
    if s == [] then None
    else
      var digits := if s[0] == '+' then s[1..] else s;
      if digits == [] || !AllDigits(digits) then None
      else if DigitsValue(digits) < 0x1_0000 then Some(DigitsValue(digits))
      else None
  }

  /** The decimal rendering of `n`, without leading zeros. */
  function Decimal(n: nat): (s: string)
    ensures |s| > 0 && AllDigits(s)
  {
    var d := ['0' + (n % 10) as char];
    if n < 10 then d else Decimal(n / 10) + d
  }

  /** The port: the flag, else `PORT` when it parses as a u16, else 0. */
  function ResolvePort(flag: Option<u16>, env: Option<string>): u16
  {
    match flag
    case Some(x) => x
    case None =>
      match env
      case Some(x) => ParseU16(x).GetOr(DefaultPort)
      case None => DefaultPort
  }

  /** A label value: the flag, else the environment variable, else "test". */
  function ResolveLabel(flag: Option<string>, env: Option<string>): string
  {
    match flag
    case Some(x) => x
    case None =>
      match env
      case Some(x) => x
      case None => DefaultLabel
  }

  /** The configuration part of `main`, reading `PORT`, `GROUP` and `INSTANCE`. */
  function Resolve(args: Args, env: map<string, string>): Settings
  {
    Settings(args.oneshot,
             ResolvePort(args.port, EnvVar(env, "PORT")),
             ResolveLabel(args.group, EnvVar(env, "GROUP")),
             ResolveLabel(args.instance, EnvVar(env, "INSTANCE")))
  }

  // ---- Properties ----

  /** Precedence for the port: flag over environment over the default 0. */
  lemma PortPrecedence(args: Args, env: map<string, string>)
    ensures args.port.Some? ==> Resolve(args, env).port == args.port.value
    ensures args.port.None? && "PORT" in env && ParseU16(env["PORT"]).Some? ==>
      Resolve(args, env).port == ParseU16(env["PORT"]).value
    ensures args.port.None? && "PORT" in env && ParseU16(env["PORT"]).None? ==> Resolve(args, env).port == 0
    ensures args.port.None? && "PORT" !in env ==> Resolve(args, env).port == 0
  {
  }

  /** Precedence for the labels: flag over environment over the default "test". */
  lemma LabelPrecedence(args: Args, env: map<string, string>)
    ensures args.group.Some? ==> Resolve(args, env).group == args.group.value
    ensures args.group.None? && "GROUP" in env ==> Resolve(args, env).group == env["GROUP"]
    ensures args.group.None? && "GROUP" !in env ==> Resolve(args, env).group == "test"
    ensures args.instance.Some? ==> Resolve(args, env).instance == args.instance.value
    ensures args.instance.None? && "INSTANCE" in env ==> Resolve(args, env).instance == env["INSTANCE"]
    ensures args.instance.None? && "INSTANCE" !in env ==> Resolve(args, env).instance == "test"
  {
  }

  lemma {:induction false} DecimalValue(n: nat)
    ensures DigitsValue(Decimal(n)) == n
  {
    var d := ['0' + (n % 10) as char];
    if n >= 10 {
      DecimalValue(n / 10);
      var s := Decimal(n / 10) + d;
      assert s[..|s| - 1] == Decimal(n / 10);
    }
  }

  /** Parsing the decimal rendering of a port, with or without `+`, gives it back. */
  lemma ParseDecimal(n: u16)
    ensures ParseU16(Decimal(n)) == Some(n)
    ensures ParseU16("+" + Decimal(n)) == Some(n)
  {
    DecimalValue(n);
    assert Decimal(n)[0] != '+';
    assert ("+" + Decimal(n))[1..] == Decimal(n);
  }

  /** A string of `0` characters only (possibly empty). */
  predicate AllZeros(z: string)
  {
    forall i :: 0 <= i < |z| ==> z[i] == '0'
  }

  /** Leading zeros do not change the value of a digit string. */
  lemma {:induction false} ZerosValue(z: string, d: string)
    requires AllZeros(z) && AllDigits(d)
    ensures AllDigits(z + d) && DigitsValue(z + d) == DigitsValue(d)
    decreases |d|, |z|
  {
    if d == [] {
      assert z + d == z;
      if z != [] {
        ZerosValue(z[..|z| - 1], []);
        assert z[..|z| - 1] + [] == z[..|z| - 1];
      }
    } else {
      var d' := d[..|d| - 1];
      assert (z + d)[..|z + d| - 1] == z + d';
      ZerosValue(z, d');
    }
  }

  /** Every non-empty digit string is some leading zeros followed by the rendering of its value. */
  lemma {:induction false} DigitsForm(d: string) returns (z: string)
    requires d != [] && AllDigits(d)
    ensures AllZeros(z) && d == z + Decimal(DigitsValue(d))
  {
    var init, c := d[..|d| - 1], d[|d| - 1];
    var k := c as int - '0' as int;
    assert '0' + (k % 10) as char == c;
    if init == [] {
      z := [];
      assert d == [c];
    } else {
      var z' := DigitsForm(init);
      var v' := DigitsValue(init);
      var v := DigitsValue(d);
      assert v == v' * 10 + k;
      if v' == 0 {
        z := z' + "0";
        assert Decimal(v) == [c];
        assert d == init + [c];
      } else {
        z := z';
        assert v / 10 == v' && v % 10 == k;
        assert Decimal(v) == Decimal(v') + [c];
        assert d == init + [c];
      }
    }
  }

  /**
   * The converse of `ParseDecimal`: every accepted string is the rendering
   * of the parsed port, possibly with leading zeros and a leading `+`.
   */
  lemma ParseAccepted(s: string)
    ensures ParseU16(s).Some? ==>
      exists z :: AllZeros(z) && (s == z + Decimal(ParseU16(s).value) || s == "+" + z + Decimal(ParseU16(s).value))
  {
    if ParseU16(s).Some? {
      var digits := if s[0] == '+' then s[1..] else s;
      var z := DigitsForm(digits);
      if s[0] == '+' {
        assert s == "+" + digits;
        assert s == "+" + z + Decimal(ParseU16(s).value);
      } else {
        assert s == z + Decimal(ParseU16(s).value);
      }
    }
  }

  /** A digit string whose value does not fit in 16 bits is rejected, with or without `+`. */
  lemma ParseRejectsDigits(d: string)
    requires d != [] && AllDigits(d) && DigitsValue(d) >= 0x1_0000
    ensures ParseU16(d) == None && ParseU16("+" + d) == None
  {
    assert IsDigit(d[0]);
    assert ("+" + d)[1..] == d;
    assert ("+" + d)[0] == '+';
  }

  /**
   * Values of 65536 and more are rejected, with or without leading zeros
   * or a `+`, and `PORT` then gives the port 0.
   */
  lemma ParseRejectsLarge(z: string, n: nat)
    requires AllZeros(z) && n >= 0x1_0000
    ensures ParseU16(z + Decimal(n)) == None
    ensures ParseU16("+" + z + Decimal(n)) == None
    ensures ResolvePort(None, Some(z + Decimal(n))) == 0
    ensures ResolvePort(None, Some("+" + z + Decimal(n))) == 0
  {
    var d := z + Decimal(n);
    DecimalValue(n);
    ZerosValue(z, Decimal(n));
    ParseRejectsDigits(d);
    assert "+" + z + Decimal(n) == "+" + d;
  }

  /** The empty string, a lone `+` and a leading `-` are rejected, and `PORT` then gives the port 0. */
  lemma ParseRejectsMalformed(s: string)
    ensures ParseU16("") == None && ParseU16("+") == None
    ensures ResolvePort(None, Some("")) == 0 && ResolvePort(None, Some("+")) == 0
    ensures |s| > 0 && s[0] == '-' ==> ParseU16(s) == None && ResolvePort(None, Some(s)) == 0
  {
    assert !IsDigit('-');
  }
}
