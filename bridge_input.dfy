/**
 * The pure steps of the bridge script's input handling
 * (evm-wallet/src/bridge.js): argument filtering, chain-id resolution by
 * alias or by JavaScript's parseInt, the allow-list of bridgeable chains,
 * the reverse lookup of the source alias, and the conversion of the
 * decimal amount to integer units with 18 decimals (viem's parseUnits).
 */
module BridgeInput {
  import opened Wrappers
  import opened Strings
  import Chains

  // ---------------------------------------------------------------------------
  // Arguments

  /** String.prototype.startsWith('-'). */
  predicate IsOption(a: string) { |a| > 0 && a[0] == '-' }

  /**
   * `args.includes('--help') || args.includes('-h')`. Both flags start with
   * '-', so a help request is always an option argument as well.
   */
  predicate HelpRequested(args: seq<string>): (b: bool)
    ensures b <==> exists i :: 0 <= i < |args| && (args[i] == "--help" || args[i] == "-h")
    ensures b ==> exists i :: 0 <= i < |args| && IsOption(args[i])
  {
    "--help" in args || "-h" in args
  }

  /** The positional arguments: every argument not starting with '-', in order. */
  function Positional(args: seq<string>): (pos: seq<string>)
    ensures |pos| <= |args|
  {
    if args == [] then []
    else if IsOption(args[0]) then Positional(args[1..])
    else [args[0]] + Positional(args[1..])
  }

  /** An argument is positional exactly when it is given and does not start with '-'. */
  lemma {:induction false} PositionalMembers(args: seq<string>, a: string)
    ensures a in Positional(args) <==> a in args && !IsOption(a)
  {
    if args != [] {
      PositionalMembers(args[1..], a);
      assert args == [args[0]] + args[1..];
    }
  }

  /** Filtering distributes over concatenation, so positional arguments keep their order. */
  lemma {:induction false} PositionalAppend(a: seq<string>, b: seq<string>)
    ensures Positional(a + b) == Positional(a) + Positional(b)
  {
    if a == [] {
      assert a + b == b;
    } else {
      assert (a + b)[0] == a[0] && (a + b)[1..] == a[1..] + b;
      PositionalAppend(a[1..], b);
    }
  }

  /** One argument: an option is dropped, anything else is kept. */
  lemma PositionalSingle(x: string)
    ensures Positional([x]) == if IsOption(x) then [] else [x]
  {
  }

  /** An option between two arguments does not change their positions relative to each other. */
  lemma PositionalSkipsOption(a: seq<string>, o: string, b: seq<string>)
    requires IsOption(o)
    ensures Positional(a + [o] + b) == Positional(a) + Positional(b)
  {
    PositionalAppend(a + [o], b);
    PositionalAppend(a, [o]);
    PositionalSingle(o);
  }

  /** Arguments none of which is an option are all positional, in order. */
  lemma {:induction false} PositionalOfPlain(args: seq<string>)
    requires forall i :: 0 <= i < |args| ==> !IsOption(args[i])
    ensures Positional(args) == args
  {
    if args != [] {
      PositionalOfPlain(args[1..]);
      assert args == [args[0]] + args[1..];
    }
  }

  // ---------------------------------------------------------------------------
  // parseInt

  /**
   * What a chain id expression evaluates to: an integer, NaN, or a non-numeric
   * object. The integer is exact; JavaScript's rounding to a double is not
   * modelled, and no rounded value equals an allowed id.
   */
  datatype ChainIdValue = Id(id: int) | NaN | NonNumber

  /**
   * The characters parseInt skips before the number: ECMAScript's WhiteSpace
   * (tab, vertical tab, form feed, the byte-order mark and every space
   * separator, U+0020, U+00A0, U+1680, U+2000 to U+200A, U+202F, U+205F and
   * U+3000) and LineTerminator (LF, CR, U+2028, U+2029).
   */
  predicate IsJsSpace(c: char)
  {
    c as int in {9, 10, 11, 12, 13, 32, 0xA0, 0x1680, 0x2028, 0x2029, 0x202F, 0x205F, 0x3000, 0xFEFF}
    || 0x2000 <= c as int <= 0x200A
  }

  function TrimStart(s: string): (t: string)
    ensures |t| <= |s| && t == s[|s| - |t|..]
    ensures t == [] || !IsJsSpace(t[0])
    ensures (s == [] || !IsJsSpace(s[0])) ==> t == s
    ensures forall i :: 0 <= i < |s| - |t| ==> IsJsSpace(s[i])
  {
    if s != [] && IsJsSpace(s[0]) then TrimStart(s[1..]) else s
  }

  /** The longest prefix made of decimal digits. */
  function DigitPrefix(s: string): (d: string)
    ensures IsDigits(d) && d <= s
    ensures |d| < |s| ==> !IsDigit(s[|d|])
  {
    if s != [] && IsDigit(s[0]) then [s[0]] + DigitPrefix(s[1..]) else []
  }

  /** The longest prefix made of hexadecimal digits. */
  function HexPrefix(s: string): (h: string)
    ensures IsHexDigits(h) && h <= s
    ensures |h| < |s| ==> !IsHexDigit(s[|h|])
  {
    if s != [] && IsHexDigit(s[0]) then [s[0]] + HexPrefix(s[1..]) else []
  }

  predicate HasHexPrefix(u: string) { |u| >= 2 && u[0] == '0' && (u[1] == 'x' || u[1] == 'X') }

  /** The digits parseInt reads after the sign, in base 16 after "0x" and in base 10 otherwise. */
  function Magnitude(u: string): Option<nat>
  {
    if HasHexPrefix(u) then
      var h := HexPrefix(u[2..]);
      if h == [] then None else Some(HexValue(h))
    else
      var d := DigitPrefix(u);
      if d == [] then None else Some(DigitsValue(d))
  }

  /**
   * parseInt with no radix: skip leading white space, take an optional sign,
   * read base 16 after "0x" or "0X" and base 10 otherwise, stop at the first
   * character that is not a digit, and give NaN when no digit was read.
   */
  function ParseInt(s: string): (v: ChainIdValue)
    ensures !v.NonNumber?
  {
    ParseTrimmed(TrimStart(s))
  }

  /** parseInt after the white space: an optional sign, then the magnitude. */
  function ParseTrimmed(t: string): (v: ChainIdValue)
    ensures !v.NonNumber?
  {
    var signed := t != [] && (t[0] == '-' || t[0] == '+');
    var negative := t != [] && t[0] == '-';
    match Magnitude(if signed then t[1..] else t)
    case None => NaN
    case Some(m) => Id(if negative then -(m as int) else m as int)
  }

  lemma {:induction false} DigitPrefixOfDigits(s: string)
    requires IsDigits(s)
    ensures DigitPrefix(s) == s
  {
    if s != [] {
      DigitPrefixOfDigits(s[1..]);
    }
  }

  /** parseInt reads back the decimal rendering of every natural number. */
  lemma ParseIntOfNatToString(n: nat)
    ensures ParseInt(NatToString(n)) == Id(n)
  {
    var s := NatToString(n);
    MagnitudeOfNatToString(n);
    assert IsDigit(s[0]);
    ParseIntOfDigitStart(s);
  }

  /** Text that starts with a digit has no white space or sign for parseInt to skip. */
  lemma ParseIntOfDigitStart(s: string)
    requires s != [] && IsDigit(s[0])
    ensures Magnitude(s).Some? ==> ParseInt(s) == Id(Magnitude(s).value)
  {
    assert !IsJsSpace(s[0]);
    var t := TrimStart(s);
    assert t == s;
    assert !(t[0] == '-' || t[0] == '+');
  }

  /** parseInt stops at the first character that is not a digit. */
  lemma ParseIntIgnoresSuffix(d: string, rest: string)
    requires IsDigits(d) && d != [] && (rest == [] || !IsDigit(rest[0]))
    requires !HasHexPrefix(d + rest)
    ensures ParseInt(d + rest) == Id(DigitsValue(d))
  {
    assert (d + rest)[0] == d[0];
    MagnitudeOfDigits(d, rest);
    ParseIntOfDigitStart(d + rest);
  }

  /** Leading white space does not change what parseInt reads. */
  lemma ParseIntSkipsSpace(w: string, t: string)
    requires forall i :: 0 <= i < |w| ==> IsJsSpace(w[i])
    ensures ParseInt(w + t) == ParseInt(t)
  {
    TrimStartSkips(w, t);
  }

  lemma {:induction false} TrimStartSkips(w: string, t: string)
    requires forall i :: 0 <= i < |w| ==> IsJsSpace(w[i])
    ensures TrimStart(w + t) == TrimStart(t)
  {
    if w != [] {
      assert (w + t)[0] == w[0] && (w + t)[1..] == w[1..] + t;
      TrimStartSkips(w[1..], t);
    } else {
      assert w + t == t;
    }
  }

  /** A sign is read once: '+' keeps the magnitude, '-' negates it, and no digits give NaN. */
  lemma ParseIntSigned(u: string)
    ensures Magnitude(u).None? ==> ParseInt("+" + u) == NaN && ParseInt("-" + u) == NaN
    ensures Magnitude(u).Some? ==>
      ParseInt("+" + u) == Id(Magnitude(u).value) && ParseInt("-" + u) == Id(-(Magnitude(u).value as int))
  {
    ParseIntAfterSign('+', u);
    ParseIntAfterSign('-', u);
  }

  lemma ParseIntAfterSign(sign: char, u: string)
    requires sign == '+' || sign == '-'
    ensures Magnitude(u).None? ==> ParseInt([sign] + u) == NaN
    ensures Magnitude(u).Some? ==>
      ParseInt([sign] + u) == Id(if sign == '-' then -(Magnitude(u).value as int) else Magnitude(u).value)
  {
    var t := [sign] + u;
    assert t[0] == sign && t[1..] == u && !IsJsSpace(t[0]);
    assert ParseInt(t) == ParseTrimmed(t);
  }

  /**
   * Text that starts with no white space, sign or digit is NaN, "eth" and
   * the empty text included.
   */
  lemma ParseIntNaN(s: string)
    requires s == [] || (!IsJsSpace(s[0]) && s[0] != '+' && s[0] != '-' && !IsDigit(s[0]))
    ensures ParseInt(s) == NaN
  {
    assert TrimStart(s) == s;
    assert s != [] ==> !HasHexPrefix(s) && DigitPrefix(s) == [];
  }

  /** "0x" or "0X" with no hexadecimal digit after it is NaN. */
  lemma ParseIntHexNoDigits(p: string, rest: string)
    requires p == "0x" || p == "0X"
    requires rest == [] || !IsHexDigit(rest[0])
    ensures ParseInt(p + rest) == NaN
  {
    var s := p + rest;
    assert s[0] == '0' && HasHexPrefix(s) && s[2..] == rest;
    assert !IsJsSpace(s[0]) && TrimStart(s) == s;
    assert HexPrefix(rest) == [];
  }

  /** After "0x" or "0X", parseInt reads hexadecimal digits up to the first character that is not one. */
  lemma ParseIntHex(p: string, h: string, rest: string)
    requires p == "0x" || p == "0X"
    requires IsHexDigits(h) && h != [] && (rest == [] || !IsHexDigit(rest[0]))
    ensures ParseInt(p + h + rest) == Id(HexValue(h))
  {
    var s := p + h + rest;
    assert s[0] == '0' && HasHexPrefix(s) && s[2..] == h + rest;
    HexPrefixAppend(h, rest);
    ParseIntOfDigitStart(s);
  }

  lemma {:induction false} HexPrefixAppend(h: string, rest: string)
    requires IsHexDigits(h) && (rest == [] || !IsHexDigit(rest[0]))
    ensures HexPrefix(h + rest) == h
  {
    if h == [] {
      assert h + rest == rest;
    } else {
      assert (h + rest)[1..] == h[1..] + rest;
      HexPrefixAppend(h[1..], rest);
    }
  }

  lemma MagnitudeOfDigits(d: string, rest: string)
    requires IsDigits(d) && d != [] && (rest == [] || !IsDigit(rest[0]))
    requires !HasHexPrefix(d + rest)
    ensures Magnitude(d + rest) == Some(DigitsValue(d))
  {
    DigitPrefixAppend(d, rest);
  }

  lemma {:induction false} DigitPrefixAppend(d: string, rest: string)
    requires IsDigits(d) && (rest == [] || !IsDigit(rest[0]))
    ensures DigitPrefix(d + rest) == d
  {
    if d == [] {
      assert d + rest == rest;
    } else {
      assert (d + rest)[1..] == d[1..] + rest;
      DigitPrefixAppend(d[1..], rest);
    }
  }

  // ---------------------------------------------------------------------------
  // Chain resolution

  /** The alias table of the bridge script, in declaration order. */
  const ChainMap: seq<(string, nat)> := [("bsc", 56), ("binance", 56), ("opbnb", 204)]

  /** The chain ids the bridge accepts. */
  const BridgeableIds: seq<int> := [56, 204]

  function AliasId(m: seq<(string, nat)>, key: string): (v: Option<nat>)
    ensures v.Some? <==> exists i :: 0 <= i < |m| && m[i].0 == key
    ensures v.Some? ==> exists i :: 0 <= i < |m| && m[i] == (key, v.value)
  {
    if m == [] then None
    else if m[0].0 == key then Some(m[0].1)
    else AliasId(m[1..], key)
  }

  /**
   * `chainMap[arg.toLowerCase()] || parseInt(arg)`: an alias wins over the
   * number; an inherited member of the object literal is a truthy non-number;
   * otherwise the argument is read with parseInt.
   */
  function ResolveChainId(arg: string): (v: ChainIdValue)
    ensures ToLower(arg) == "bsc" || ToLower(arg) == "binance" ==> v == Id(56)
    ensures ToLower(arg) == "opbnb" ==> v == Id(204)
    ensures ToLower(arg) in Chains.InheritedLowerNames ==> v == NonNumber
    ensures AliasId(ChainMap, ToLower(arg)).None? && ToLower(arg) !in Chains.InheritedLowerNames ==>
      v == ParseInt(arg)
  {
    var key := ToLower(arg);
    match AliasId(ChainMap, key)
    case Some(id) => Id(id)
    case None =>
      if key in Chains.InheritedLowerNames then NonNumber else ParseInt(arg)
  }

  /** "eth", the help text's example of another chain, is no alias and parses to NaN, so it is refused. */
  lemma ResolveEth()
    ensures ResolveChainId("eth") == NaN && !Bridgeable(ResolveChainId("eth"))
  {
    var k := "eth";
    assert k[0] == 'e' && !IsUpperAscii(k[0]) && !IsUpperAscii(k[1]) && !IsUpperAscii(k[2]);
    ToLowerOfLower(k);
    assert AliasId(ChainMap, k).None? by {
      forall i | 0 <= i < |ChainMap| ensures ChainMap[i].0 != k {
        assert ChainMap[i].0[0] != 'e';
      }
    }
    assert k !in Chains.InheritedLowerNames;
    assert !IsJsSpace(k[0]) && !IsDigit(k[0]);
    ParseIntNaN(k);
  }

  /** `[56, 204].includes(v)`: NaN and the non-numeric values never pass. */
  predicate Bridgeable(v: ChainIdValue): (b: bool)
    ensures b <==> v == Id(56) || v == Id(204)
  {
    v.Id? && v.id in BridgeableIds
  }

  /** An argument that starts with neither a letter nor '_' is no alias and no inherited name: parseInt reads it. */
  lemma ResolvesByParseInt(arg: string)
    requires arg != [] && !IsUpperAscii(arg[0]) && !('a' <= arg[0] <= 'z') && arg[0] != '_'
    ensures ResolveChainId(arg) == ParseInt(arg)
  {
    var key := ToLower(arg);
    assert key[0] == arg[0];
    assert AliasId(ChainMap, key).None? by {
      forall i | 0 <= i < |ChainMap| ensures ChainMap[i].0 != key {
        assert 'a' <= ChainMap[i].0[0] <= 'z';
      }
    }
    assert key != "constructor" && key != "__proto__";
  }

  /** A chain id after leading white space resolves to the id. */
  lemma ResolveSpaced(w: string, n: nat)
    requires w != [] && forall i :: 0 <= i < |w| ==> IsJsSpace(w[i])
    ensures ResolveChainId(w + NatToString(n)) == Id(n)
  {
    assert (w + NatToString(n))[0] == w[0];
    ResolvesByParseInt(w + NatToString(n));
    ParseIntSkipsSpace(w, NatToString(n));
    ParseIntOfNatToString(n);
  }

  /** A signed chain id resolves to the id, negated after '-'. */
  lemma ResolveSigned(n: nat)
    ensures ResolveChainId("+" + NatToString(n)) == Id(n)
    ensures ResolveChainId("-" + NatToString(n)) == Id(-(n as int))
  {
    var s := NatToString(n);
    SignedMagnitude(n);
    ResolvesByParseInt("+" + s);
    ResolvesByParseInt("-" + s);
  }

  lemma SignedMagnitude(n: nat)
    ensures var s := NatToString(n);
      && ("+" + s)[0] == '+' && ("-" + s)[0] == '-'
      && ParseInt("+" + s) == Id(n) && ParseInt("-" + s) == Id(-(n as int))
  {
    MagnitudeOfNatToString(n);
    SignedOfMagnitude(NatToString(n), n);
  }

  lemma SignedOfMagnitude(s: string, n: nat)
    requires Magnitude(s) == Some(n)
    ensures && ("+" + s)[0] == '+' && ("-" + s)[0] == '-'
            && ParseInt("+" + s) == Id(n) && ParseInt("-" + s) == Id(-(n as int))
  {
    ParseIntSigned(s);
  }

  lemma MagnitudeOfNatToString(n: nat)
    ensures Magnitude(NatToString(n)) == Some(n)
  {
    var s := NatToString(n);
    DigitPrefixOfDigits(s);
    NatToStringRoundTrip(n);
    assert !HasHexPrefix(s) by {
      if |s| >= 2 {
        assert IsDigit(s[1]);
      }
    }
  }

  /** A chain id written in hexadecimal after "0x" or "0X" resolves to its value. */
  lemma ResolveHex(p: string, h: string)
    requires p == "0x" || p == "0X"
    requires IsHexDigits(h) && h != []
    ensures ResolveChainId(p + h) == Id(HexValue(h))
  {
    assert (p + h)[0] == '0';
    ResolvesByParseInt(p + h);
    ParseIntHex(p, h, []);
    assert p + h + [] == p + h;
  }

  /** A number given in decimal resolves to itself. */
  lemma ResolveNumeric(n: nat)
    ensures ResolveChainId(NatToString(n)) == Id(n)
  {
    var s := NatToString(n);
    assert forall i :: 0 <= i < |s| ==> ToLower(s)[i] == s[i];
    assert ToLower(s) == s;
    assert AliasId(ChainMap, s).None? by {
      forall i | 0 <= i < |ChainMap| ensures ChainMap[i].0 != s {
        assert !IsDigit(ChainMap[i].0[0]);
      }
    }
    assert s !in Chains.InheritedLowerNames by {
      assert !IsDigit("constructor"[0]) && !IsDigit("__proto__"[0]);
    }
    ParseIntOfNatToString(n);
  }

  /** `Object.keys(chainMap).find(key => chainMap[key] === id)`: the first alias of an id. */
  function SourceAlias(m: seq<(string, nat)>, id: int): (k: Option<string>)
    ensures k.Some? <==> exists i :: 0 <= i < |m| && m[i].1 == id
    ensures k.Some? ==> exists i :: 0 <= i < |m| && m[i] == (k.value, id) &&
                                    (forall j :: 0 <= j < i ==> m[j].1 != id)
  {
    if m == [] then None
    else if m[0].1 == id then Some(m[0].0)
    else
      var k := SourceAlias(m[1..], id);
      if k.Some? then
        ghost var i :| 0 <= i < |m[1..]| && m[1..][i] == (k.value, id) &&
                       (forall j :: 0 <= j < i ==> m[1..][j].1 != id);
        assert m[i + 1] == (k.value, id);
        k
      else k
  }

  /** Each bridgeable id has an alias: 56 gives "bsc" (declared before "binance"), 204 gives "opbnb". */
  lemma SourceAliasOfBridgeable(v: ChainIdValue)
    requires Bridgeable(v)
    ensures v.id == 56 ==> SourceAlias(ChainMap, v.id) == Some("bsc")
    ensures v.id == 204 ==> SourceAlias(ChainMap, v.id) == Some("opbnb")
    ensures SourceAlias(ChainMap, v.id).Some? && Chains.GetChain(SourceAlias(ChainMap, v.id).value).Success?
    ensures Chains.GetChain(SourceAlias(ChainMap, v.id).value).value.chainId == v.id
  {
    var k := SourceAlias(ChainMap, v.id).value;
    assert IsLower(k);
    ToLowerOfLower(k);
  }

  // ---------------------------------------------------------------------------
  // Amount scaling (viem parseUnits with a fixed 18 decimals)

  /** The bridge script never looks up a token's precision; it always uses 18. */
  const Decimals: nat := 18

  /** The amount in integer units, or an input whose conversion this model does not cover. */
  datatype Units = Units(value: nat) | NotModelled

  function IndexOfDot(s: string): (k: Option<nat>)
    ensures k.Some? ==> k.value < |s| && s[k.value] == '.' && '.' !in s[..k.value]
    ensures k.None? ==> '.' !in s
  {
    if s == [] then None
    else if s[0] == '.' then Some(0)
    else
      match IndexOfDot(s[1..])
      case None => None
      case Some(j) => assert s[..j + 1] == [s[0]] + s[1..][..j]; Some(j + 1)
  }

  /** The text before the first '.', or all of it. */
  function IntegerPart(s: string): string
  {
    match IndexOfDot(s)
    case None => s
    case Some(i) => s[..i]
  }

  /**
   * The text after the first '.'; "0" when there is no '.'. A second '.' is
   * part of it, so such an amount is not made of digits and is not converted.
   */
  function FractionPart(s: string): string
  {
    match IndexOfDot(s)
    case None => "0"
    case Some(i) => s[i + 1..]
  }

  /** `fraction.replace(/(0+)$/, '')`. */
  function TrimTrailingZeros(f: string): (r: string)
    ensures |r| <= |f| && f == r + Zeros(|f| - |r|)
    ensures r == [] || r[|r| - 1] != '0'
  {
    if f != [] && f[|f| - 1] == '0' then
      var r := TrimTrailingZeros(f[..|f| - 1]);
      assert f == f[..|f| - 1] + ['0'];
      r
    else
      assert f == f + Zeros(0);
      f
  }

  /**
   * viem's parseUnits(amount, decimals): the integer part, then the fraction
   * without trailing zeros padded to `decimals` digits, read as one integer.
   * Fractions longer than `decimals` digits (which viem rounds) and text that
   * is not made of digits fall outside the model.
   */
  function ParseUnits(amount: string, decimals: nat): (u: Units)
    ensures |TrimTrailingZeros(FractionPart(amount))| > decimals ==> u == NotModelled
    ensures u.Units? ==> IsDigits(IntegerPart(amount)) && IsDigits(FractionPart(amount))
  {
    var integer := IntegerPart(amount);
    var fraction := TrimTrailingZeros(FractionPart(amount));
    if |fraction| > decimals then NotModelled
    else
      var digits := Padded(integer, FractionPart(amount), decimals);
      if IsDigits(digits) then
        PaddedParts(integer, FractionPart(amount), decimals);
        Units(DigitsValue(digits))
      else NotModelled
  }

  /** Padded digits come from an integer part and a fraction that are digits themselves. */
  lemma PaddedParts(integer: string, f: string, decimals: nat)
    requires |TrimTrailingZeros(f)| <= decimals && IsDigits(Padded(integer, f, decimals))
    ensures IsDigits(integer) && IsDigits(f)
  {
    var digits := Padded(integer, f, decimals);
    var r := TrimTrailingZeros(f);
    assert integer == digits[..|integer|] && r == digits[|integer|..|integer| + |r|];
    assert f == r + Zeros(|f| - |r|);
  }

  /** An amount with two '.' is not converted: the fraction after the first one holds the second. */
  lemma ParseUnitsRejectsSecondDot(amount: string, d: nat, i: nat, j: nat)
    requires i < j < |amount| && amount[i] == '.' && amount[j] == '.'
    ensures ParseUnits(amount, d) == NotModelled
  {
    var k := IndexOfDot(amount).value;
    assert k <= i;
    assert FractionPart(amount)[j - k - 1] == '.';
  }

  lemma {:induction false} Pow10Add(a: nat, b: nat)
    ensures Pow10(a + b) == Pow10(a) * Pow10(b)
  {
    if b > 0 {
      Pow10Add(a, b - 1);
      assert Pow10(a + b) == 10 * Pow10(a + b - 1);
      assert Pow10(a) * Pow10(b) == Pow10(a) * (10 * Pow10(b - 1));
    }
  }

  lemma IsDigitsPrefix(s: string, k: nat)
    requires IsDigits(s) && k <= |s|
    ensures IsDigits(s[..k])
  {
  }

  /** Digits followed by zeros: the value is shifted by the number of zeros. */
  lemma ZerosShift(d: string, k: nat)
    requires IsDigits(d)
    ensures IsDigits(d + Zeros(k)) && DigitsValue(d + Zeros(k)) == DigitsValue(d) * Pow10(k)
  {
    DigitsValueZeros(k);
    DigitsValueAppend(d, Zeros(k));
  }

  lemma NoDotInDigits(d: string)
    requires IsDigits(d)
    ensures '.' !in d
  {
    forall k | 0 <= k < |d| ensures d[k] != '.' {
      assert IsDigit(d[k]);
    }
  }

  lemma {:induction false} IndexOfDotAt(s: string, n: nat)
    requires n < |s| && s[n] == '.' && '.' !in s[..n]
    ensures IndexOfDot(s) == Some(n)
  {
    if n > 0 {
      assert s[0] in s[..n];
      assert s[1..][..n - 1] == s[..n][1..];
      IndexOfDotAt(s[1..], n - 1);
    }
  }

  /** Splitting "i.f" at its dot gives i and f back when neither holds a dot. */
  lemma SplitAtDot(i: string, f: string)
    requires '.' !in i && '.' !in f
    ensures IntegerPart(i + "." + f) == i && FractionPart(i + "." + f) == f
  {
    var s := i + "." + f;
    assert s[..|i|] == i && s[|i|] == '.' && s[|i| + 1..] == f;
    IndexOfDotAt(s, |i|);
  }

  /** Trailing zeros of a fraction carry no value once it is padded to a fixed width. */
  lemma TrimmedFraction(f: string)
    requires IsDigits(f)
    ensures var r := TrimTrailingZeros(f);
      IsDigits(r) && DigitsValue(f) == DigitsValue(r) * Pow10(|f| - |r|)
  {
    var r := TrimTrailingZeros(f);
    var k := |f| - |r|;
    assert f == r + Zeros(k);
    assert f[..|r|] == r;
    IsDigitsPrefix(f, |r|);
    ZerosShift(r, k);
    assert DigitsValue(f) == DigitsValue(r + Zeros(k));
  }

  /** The digits parseUnits reads: the integer part, then the fraction without trailing zeros padded to `decimals` places. */
  function Padded(integer: string, fraction: string, decimals: nat): string
    requires |TrimTrailingZeros(fraction)| <= decimals
  {
    var r := TrimTrailingZeros(fraction);
    integer + r + Zeros(decimals - |r|)
  }

  /** The integer that "i.f" denotes once the fraction is padded to d places. */
  lemma ScaledValue(i: string, f: string, d: nat)
    requires IsDigits(i) && IsDigits(f) && |f| <= d
    ensures IsDigits(Padded(i, f, d))
    ensures DigitsValue(Padded(i, f, d)) == DigitsValue(i) * Pow10(d) + DigitsValue(f) * Pow10(d - |f|)
  {
    var r := TrimTrailingZeros(f);
    var k := |f| - |r|;
    var b := d - |r|;
    TrimmedFraction(f);
    DigitsValueAppend(i, r);
    ZerosShift(i + r, b);
    Pow10Add(|r|, b);
    Pow10Add(k, d - |f|);
    assert k + (d - |f|) == b;
    assert Padded(i, f, d) == (i + r) + Zeros(b);
    Rescale(DigitsValue(Padded(i, f, d)), DigitsValue(i + r), DigitsValue(i), DigitsValue(r), DigitsValue(f),
      Pow10(|r|), Pow10(b), Pow10(k), Pow10(d - |f|), Pow10(d));
  }

  /** The arithmetic of padding: shifting "i r" by b places is shifting i by 18 and f by 18 - |f|. */
  lemma Rescale(w: int, v: int, x: int, y: int, z: int, pr: int, pb: int, pk: int, pf: int, p18: int)
    requires w == v * pb && v == x * pr + y && z == y * pk
    requires pr * pb == p18 && pk * pf == pb
    ensures w == x * p18 + z * pf
  {
    calc {
      w;
      (x * pr + y) * pb;
      (x * pr) * pb + y * pb;
      { assert (x * pr) * pb == x * (pr * pb); }
      x * p18 + y * pb;
      { assert y * (pk * pf) == (y * pk) * pf; }
      x * p18 + z * pf;
    }
  }

  /**
   * An amount written as digits, '.', and at most d fraction digits becomes
   * its integer part times 10^d plus its fraction scaled to d places.
   */
  lemma ParseUnitsDecimal(i: string, f: string, d: nat)
    requires IsDigits(i) && IsDigits(f) && |f| <= d
    ensures ParseUnits(i + "." + f, d).Units?
    ensures ParseUnits(i + "." + f, d).value == DigitsValue(i) * Pow10(d) + DigitsValue(f) * Pow10(d - |f|)
  {
    NoDotInDigits(i);
    NoDotInDigits(f);
    var s := i + "." + f;
    SplitAtDot(i, f);
    ScaledValue(i, f, d);
    var digits := Padded(i, f, d);
    assert |TrimTrailingZeros(FractionPart(s))| <= d;
    assert Padded(IntegerPart(s), FractionPart(s), d) == digits;
    assert ParseUnits(s, d) == Units(DigitsValue(digits));
  }

  /** An amount with no '.' is a whole number of tokens. */
  lemma ParseUnitsWhole(i: string, d: nat)
    requires IsDigits(i)
    ensures ParseUnits(i, d).Units? && ParseUnits(i, d).value == DigitsValue(i) * Pow10(d)
  {
    WholeParts(i);
    assert Padded(i, FractionPart(i), d) == i + Zeros(d);
    ZerosShift(i, d);
  }

  lemma WholeParts(i: string)
    requires IsDigits(i)
    ensures IntegerPart(i) == i && FractionPart(i) == "0" && TrimTrailingZeros(FractionPart(i)) == []
  {
    NoDotInDigits(i);
    assert IndexOfDot(i).None?;
    assert TrimTrailingZeros("0") == TrimTrailingZeros([]);
  }

  lemma Pow10Eighteen()
    ensures Pow10(17) == 100000000000000000 && Pow10(18) == 1000000000000000000
  {
    assert Pow10(1) == 10;
    assert Pow10(2) == 100;
    assert Pow10(3) == 1000;
    assert Pow10(4) == 10000;
    assert Pow10(5) == 100000;
    assert Pow10(6) == 1000000;
    assert Pow10(7) == 10000000;
    assert Pow10(8) == 100000000;
    assert Pow10(9) == 1000000000;
    assert Pow10(10) == 10000000000;
    assert Pow10(11) == 100000000000;
    assert Pow10(12) == 1000000000000;
    assert Pow10(13) == 10000000000000;
    assert Pow10(14) == 100000000000000;
    assert Pow10(15) == 1000000000000000;
    assert Pow10(16) == 10000000000000000;
    assert Pow10(17) == 100000000000000000;
    assert Pow10(18) == 1000000000000000000;
  }

  /** The worked example: 1.5 tokens are 1500000000000000000 units. */
  lemma ParseUnitsExample(amount: string)
    requires amount == "1.5"
    ensures ParseUnits(amount, Decimals) == Units(1500000000000000000)
  {
    var i, f := OneAndAHalfParts(amount);
    ParseUnitsDecimal(i, f, Decimals);
    Pow10Eighteen();
    OneAndAHalf(ParseUnits(amount, Decimals).value, DigitsValue(i), DigitsValue(f), Pow10(Decimals), Pow10(Decimals - |f|));
  }

  lemma OneAndAHalfParts(amount: string) returns (i: string, f: string)
    requires amount == "1.5"
    ensures amount == i + "." + f && IsDigits(i) && IsDigits(f) && |f| == 1
    ensures DigitsValue(i) == 1 && DigitsValue(f) == 5
  {
    i, f := amount[..1], amount[2..];
    assert i + "." + f == amount;
    assert i[..0] == [] && f[..0] == [];
  }

  lemma OneAndAHalf(v: int, a: int, b: int, p: int, q: int)
    requires v == a * p + b * q && a == 1 && b == 5
    requires p == 1000000000000000000 && q == 100000000000000000
    ensures v == 1500000000000000000
  {
  }

  /** The decimal text of that amount, as it goes into the quote request. */
  lemma AmountTextExample()
    ensures NatToString(1500000000000000000) == "1500000000000000000"
  {
    assert NatToString(15) == "15";
    assert NatToString(150) == "150";
    assert NatToString(1500) == "1500";
    assert NatToString(15000) == "15000";
    assert NatToString(150000) == "150000";
    assert NatToString(1500000) == "1500000";
    assert NatToString(15000000) == "15000000";
    assert NatToString(150000000) == "150000000";
    assert NatToString(1500000000) == "1500000000";
    assert NatToString(15000000000) == "15000000000";
    assert NatToString(150000000000) == "150000000000";
    assert NatToString(1500000000000) == "1500000000000";
    assert NatToString(15000000000000) == "15000000000000";
    assert NatToString(150000000000000) == "150000000000000";
    assert NatToString(1500000000000000) == "1500000000000000";
    assert NatToString(15000000000000000) == "15000000000000000";
    assert NatToString(150000000000000000) == "150000000000000000";
    assert NatToString(1500000000000000000) == "1500000000000000000";
  }
}
