/** Derivation paths of hierarchical deterministic wallets (accounts/hd.go; BIP-32, and BIP-44,
    section "Path levels"). */
module DerivationPaths {
  import opened Wrappers

  type uint32 = n: nat | n < 0x1_0000_0000
  const HARDENED: nat := 0x8000_0000
  const MAX_UINT32: nat := 0xFFFF_FFFF

  type DerivationPath = seq<uint32>
  const DEFAULT_ROOT: DerivationPath := [HARDENED + 44, HARDENED + 60, HARDENED, 0]

  datatype PathError = EmptyPath | AmbiguousPath | InvalidComponent | OutOfRange

  /** White space, as strings.TrimSpace understands it. */
  predicate IsSpace(c: char) {
    c in {'\t', '\n', '\U{0B}', '\U{0C}', '\r', ' ', '\U{85}', '\U{A0}'}
    || c in {'\U{1680}', '\U{2028}', '\U{2029}', '\U{202F}', '\U{205F}', '\U{3000}'}
    || '\U{2000}' <= c <= '\U{200A}'
  }

  function TrimLeft(s: string): string {
    if s != "" && IsSpace(s[0]) then TrimLeft(s[1..]) else s
  }

  function TrimRight(s: string): string {
    if s != "" && IsSpace(s[|s| - 1]) then TrimRight(s[..|s| - 1]) else s
  }

  function TrimSpace(s: string): string {
    TrimRight(TrimLeft(s))
  }

  /** The pieces of a string between slashes. */
  function Split(s: string): (parts: seq<string>)
    ensures parts != []
  {
    if s == "" then [""]
    else
      var rest := Split(s[1..]);
      if s[0] == '/' then [""] + rest else [[s[0]] + rest[0]] + rest[1..]
  }

  /** The value of a digit in a base up to 36; no digit has the value 99. */
  function DigitValue(c: char): nat {
    if '0' <= c <= '9' then c as nat - '0' as nat
    else if 'a' <= c <= 'z' then c as nat - 'a' as nat + 10
    else if 'A' <= c <= 'Z' then c as nat - 'A' as nat + 10
    else 99
  }

  /** The number that `s` goes on with after `acc`. An underscore may follow a digit or the
      base prefix, and a digit has to follow it. */
  function Digits(s: string, base: nat, separable: bool, acc: nat, found: bool): Option<nat> {
    if s == "" then if separable && found then Some(acc) else None
    else if s[0] == '_' then if separable then Digits(s[1..], base, false, acc, found) else None
    else if DigitValue(s[0]) < base then Digits(s[1..], base, true, acc * base + DigitValue(s[0]), true)
    else None
  }

  /** An unsigned integer literal with its base prefix: 0b, 0o, 0x, or 0 for octal. */
  function Natural(s: string): Option<nat> {
    if s == "" then None
    else if s[0] != '0' then Digits(s, 10, false, 0, false)
    else if |s| == 1 then Some(0)
    else if s[1] in {'b', 'B'} then Digits(s[2..], 2, true, 0, false)
    else if s[1] in {'o', 'O'} then Digits(s[2..], 8, true, 0, false)
    else if s[1] in {'x', 'X'} then Digits(s[2..], 16, true, 0, false)
    else Digits(s[1..], 8, true, 0, false)
  }

  /** An integer literal with an optional sign. */
  function Integer(s: string): Option<int> {
    if s != "" && s[0] == '-' then
      var n := Natural(s[1..]);
      if n.Some? then Some(-(n.value as int)) else None
    else if s != "" && s[0] == '+' then Natural(s[1..])
    else Natural(s)
  }

  predicate IsHardened(component: string) {
    component != "" && component[|component| - 1] == '\''
  }

  /** What a component between slashes stands for. */
  function Component(part: string): Result<uint32, PathError> {
    var component := TrimSpace(part);
    var value := if IsHardened(component) then HARDENED else 0;
    var digits := if IsHardened(component) then TrimSpace(component[..|component| - 1]) else component;
    match Integer(digits)
    case None => Err(InvalidComponent)
    case Some(n) => if n < 0 || n > MAX_UINT32 - value then Err(OutOfRange) else Ok(value + n)
  }

  /** The path of all components, after those of `root`; the first bad one is the error. */
  function Components(parts: seq<string>, root: DerivationPath): Result<DerivationPath, PathError> {
    if parts == [] then Ok(root)
    else
      match Component(parts[0])
      case Err(e) => Err(e)
      case Ok(c) => Components(parts[1..], root + [c])
  }

  /** What a path in writing stands for: an absolute one starts with m, and a relative one goes
      on from the default root. */
  function Parsed(path: string): Result<DerivationPath, PathError> {
    var parts := Split(path);
    if TrimSpace(parts[0]) == "" then Err(AmbiguousPath)
    else if TrimSpace(parts[0]) != "m" then Components(parts, DEFAULT_ROOT)
    else if |parts| == 1 then Err(EmptyPath)
    else Components(parts[1..], [])
  }

  method ParseDerivationPath(path: string) returns (r: Result<DerivationPath, PathError>)
    ensures r == Parsed(path)
  {
    hide TrimSpace, Integer, Split;
    var components := Split(path);
    var result: DerivationPath := [];
    if TrimSpace(components[0]) == "" {
      return Err(AmbiguousPath);
    } else if TrimSpace(components[0]) == "m" {
      components := components[1..];
    } else {
      result := result + DEFAULT_ROOT;
    }
    if components == [] {
      return Err(EmptyPath);
    }
    assert result == [] || result == DEFAULT_ROOT;
    assert components[0..] == components;
    for i := 0 to |components|
      invariant Parsed(path) == Components(components[i..], result)
    {
      var component := TrimSpace(components[i]);
      var value := 0;
      if IsHardened(component) {
        value := HARDENED;
        component := TrimSpace(component[..|component| - 1]);
      }
      assert components[i..][1..] == components[i + 1..];
      var bigval := Integer(component);
      if bigval == None {
        return Err(InvalidComponent);
      }
      var max := MAX_UINT32 - value;
      if bigval.value < 0 || bigval.value > max {
        return Err(OutOfRange);
      }
      value := value + bigval.value;
      result := result + [value];
    }
    return Ok(result);
  }

  function Digit(d: nat): char
    requires d < 16
  {
    "0123456789abcdef"[d]
  }

  /** A number in a base up to 16. */
  function Numeral(n: nat, base: nat): string
    requires 2 <= base <= 16
  {
    if n < base then [Digit(n)] else Numeral(n / base, base) + [Digit(n % base)]
  }

  function Decimal(n: nat): string {
    Numeral(n, 10)
  }

  /** A component in writing: a prime marks a hardened one. */
  function Written(c: uint32): string {
    if c >= HARDENED then Decimal(c - HARDENED) + "'" else Decimal(c)
  }

  function Render(path: DerivationPath): string {
    if path == [] then "m" else Render(path[..|path| - 1]) + "/" + Written(path[|path| - 1])
  }

  method ToString(path: DerivationPath) returns (result: string)
    ensures result == Render(path)
  {
    result := "m";
    for i := 0 to |path|
      invariant result == Render(path[..i])
    {
      assert path[..i + 1][..i] == path[..i];
      var component, hardened := path[i], false;
      if component >= HARDENED {
        component, hardened := component - HARDENED, true;
      }
      result := result + "/" + Decimal(component);
      if hardened {
        result := result + "'";
      }
    }
    assert path[..|path|] == path;
  }

  /** Reading a number written in its base gives it back, whatever comes after it. */
  lemma {:induction false} DigitsOfNumeral(n: nat, base: nat, rest: string, separable: bool, found: bool)
    requires 2 <= base <= 16
    ensures Digits(Numeral(n, base) + rest, base, separable, 0, found) == Digits(rest, base, true, n, true)
  {
    hide Digits, Digit;
    if n < base {
      OneDigit(n, base, rest, separable, 0, found);
    } else {
      var upper, last := n / base, n % base;
      Divided(n, base);
      DigitsOfNumeral(upper, base, [Digit(last)] + rest, separable, found);
      assert Numeral(n, base) + rest == Numeral(upper, base) + ([Digit(last)] + rest);
      OneDigit(last, base, rest, true, upper, true);
    }
  }

  lemma Divided(n: nat, base: nat)
    requires base >= 2
    ensures n / base * base + n % base == n && 0 <= n % base < base && (n > 0 ==> n / base < n)
  {
  }

  lemma OneDigit(d: nat, base: nat, rest: string, separable: bool, acc: nat, found: bool)
    requires d < base <= 16
    ensures Digits([Digit(d)] + rest, base, separable, acc, found) == Digits(rest, base, true, acc * base + d, true)
  {
  }

  /** Prefixes choose the base. */
  lemma PrefixedNumbers(n: nat)
    ensures Natural("0x" + Numeral(n, 16)) == Natural("0X" + Numeral(n, 16)) == Some(n)
    ensures Natural("0o" + Numeral(n, 8)) == Natural("0O" + Numeral(n, 8)) == Natural("0" + Numeral(n, 8)) == Some(n)
    ensures Natural("0b" + Numeral(n, 2)) == Natural("0B" + Numeral(n, 2)) == Some(n)
  {
    hide Digits, Numeral, Natural;
    NumeralRead(n, 16);
    NumeralRead(n, 8);
    NumeralRead(n, 2);
    OctalShape(n);
    AfterPrefix('x', Numeral(n, 16));
    AfterPrefix('X', Numeral(n, 16));
    AfterPrefix('o', Numeral(n, 8));
    AfterPrefix('O', Numeral(n, 8));
    AfterPrefix('b', Numeral(n, 2));
    AfterPrefix('B', Numeral(n, 2));
    AfterZero(Numeral(n, 8));
  }

  lemma NumeralRead(n: nat, base: nat)
    requires 2 <= base <= 16
    ensures Digits(Numeral(n, base), base, true, 0, false) == Some(n)
  {
    DigitsOfNumeral(n, base, "", true, false);
    assert Numeral(n, base) + "" == Numeral(n, base);
  }

  lemma AfterPrefix(c: char, digits: string)
    ensures ['0'] + [c] == "0" + [c]
    ensures c in {'x', 'X'} ==> Natural("0" + [c] + digits) == Digits(digits, 16, true, 0, false)
    ensures c in {'o', 'O'} ==> Natural("0" + [c] + digits) == Digits(digits, 8, true, 0, false)
    ensures c in {'b', 'B'} ==> Natural("0" + [c] + digits) == Digits(digits, 2, true, 0, false)
    ensures "0" + ['x'] == "0x" && "0" + ['X'] == "0X" && "0" + ['o'] == "0o" && "0" + ['O'] == "0O"
    ensures "0" + ['b'] == "0b" && "0" + ['B'] == "0B"
  {
    hide Digits;
    var s := "0" + [c] + digits;
    assert s[0] == '0' && s[1] == c && s[2..] == digits;
  }

  lemma AfterZero(digits: string)
    requires digits != "" && '0' <= digits[0] <= '9'
    ensures Natural("0" + digits) == Digits(digits, 8, true, 0, false)
  {
    hide Digits;
    var s := "0" + digits;
    assert s[0] == '0' && s[1] == digits[0] && |s| > 1 && s[1..] == digits;
    OctalIsNoPrefix(s[1]);
  }

  lemma OctalIsNoPrefix(c: char)
    requires '0' <= c <= '9'
    ensures c !in {'b', 'B'} && c !in {'o', 'O'} && c !in {'x', 'X'}
  {
  }

  lemma {:induction false} OctalShape(n: nat)
    ensures Numeral(n, 8) != "" && '0' <= Numeral(n, 8)[0] <= '7'
  {
    if n >= 8 {
      OctalShape(n / 8);
    }
  }

  /** Decimal digits only, and no zero in front. */
  lemma {:induction false} DecimalShape(n: nat)
    ensures Decimal(n) != "" && forall i :: 0 <= i < |Decimal(n)| ==> '0' <= Decimal(n)[i] <= '9'
    ensures n > 0 ==> Decimal(n)[0] != '0'
    ensures n == 0 ==> Decimal(n) == "0"
  {
    if n >= 10 {
      DecimalShape(n / 10);
    }
  }

  lemma IntegerOfDecimal(n: nat)
    ensures Integer(Decimal(n)) == Some(n)
  {
    DecimalShape(n);
    DigitsOfNumeral(n, 10, "", false, false);
    assert Decimal(n) + "" == Decimal(n);
  }

  lemma NothingToTrim(s: string)
    requires s != "" && !IsSpace(s[0]) && !IsSpace(s[|s| - 1])
    ensures TrimSpace(s) == s
  {
  }

  lemma ComponentOfWritten(c: uint32)
    ensures Component(Written(c)) == Ok(c)
    ensures '/' !in Written(c)
  {
    var n := if c >= HARDENED then c - HARDENED else c;
    DecimalShape(n);
    IntegerOfDecimal(n);
    NothingToTrim(Decimal(n));
    NothingToTrim(Written(c));
    if c >= HARDENED {
      assert Written(c)[..|Written(c)| - 1] == Decimal(n);
    }
  }

  lemma {:induction false} SplitWhole(s: string)
    requires '/' !in s
    ensures Split(s) == [s]
  {
    if s != "" {
      SplitWhole(s[1..]);
      assert [s[0]] + s[1..] == s;
    }
  }

  /** What is written after a slash is the last piece. */
  lemma {:induction false} SplitLast(s: string, last: string)
    requires '/' !in last
    ensures Split(s + "/" + last) == Split(s) + [last]
  {
    var all := s + "/" + last;
    if s == "" {
      assert all[1..] == last;
      SplitWhole(last);
    } else {
      assert all[1..] == s[1..] + "/" + last;
      SplitLast(s[1..], last);
    }
  }

  function AllWritten(path: DerivationPath): seq<string> {
    seq(|path|, i requires 0 <= i < |path| => Written(path[i]))
  }

  lemma OneMoreWritten(path: DerivationPath)
    requires path != []
    ensures AllWritten(path) == AllWritten(path[..|path| - 1]) + [Written(path[|path| - 1])]
  {
  }

  lemma {:induction false} SplitRendered(path: DerivationPath)
    ensures Split(Render(path)) == ["m"] + AllWritten(path)
  {
    hide Written, Split, AllWritten;
    if path == [] {
      SplitWhole("m");
      assert AllWritten([]) == [] by { NoneWritten(); }
    } else {
      var k := |path| - 1;
      SplitRendered(path[..k]);
      ComponentOfWritten(path[k]);
      SplitLast(Render(path[..k]), Written(path[k]));
      OneMoreWritten(path);
    }
  }

  lemma NoneWritten()
    ensures AllWritten([]) == []
  {
  }

  lemma {:induction false} ComponentsOfWritten(path: DerivationPath, root: DerivationPath)
    ensures Components(AllWritten(path), root) == Ok(root + path)
  {
    if path == [] {
      assert root + path == root;
    } else {
      ComponentOfWritten(path[0]);
      assert AllWritten(path)[1..] == AllWritten(path[1..]);
      ComponentsOfWritten(path[1..], root + [path[0]]);
      assert root + [path[0]] + path[1..] == root + path;
    }
  }

  /** Parsing a path in its canonical writing gives it back, hardened components included;
      only of the empty path the writing is not parsed. */
  lemma RoundTrip(path: DerivationPath)
    ensures Parsed(Render(path)) == if path == [] then Err(EmptyPath) else Ok(path)
  {
    SplitRendered(path);
    NothingToTrim("m");
    var parts := Split(Render(path));
    assert parts[1..] == AllWritten(path);
    ComponentsOfWritten(path, []);
    assert [] + path == path;
  }

  /** A path written without the m and the slash goes on from the default root m/44'/60'/0'/0. */
  lemma RelativeGoesOnFromRoot(path: DerivationPath)
    requires path != []
    ensures Render(path)[..2] == "m/"
    ensures Parsed(Render(path)[2..]) == Ok([0x8000_002C, 0x8000_003C, 0x8000_0000, 0] + path)
  {
    hide TrimSpace, Written, Component, AllWritten, Split, Render;
    var text := Render(path);
    RenderedAfterM(path);
    SplitRendered(path);
    SplitFirst(text[2..]);
    assert Split(text[2..]) == (["m"] + AllWritten(path))[1..] == AllWritten(path);
    FirstWritten(path);
    WrittenStart(path[0]);
    ComponentsOfWritten(path, DEFAULT_ROOT);
  }

  lemma FirstWritten(path: DerivationPath)
    requires path != []
    ensures |AllWritten(path)| == |path| && AllWritten(path)[0] == Written(path[0])
  {
  }

  lemma {:induction false} RenderedAfterM(path: DerivationPath)
    requires path != []
    ensures |Render(path)| >= 2 && Render(path)[..2] == "m/" && Render(path) == "m/" + Render(path)[2..]
  {
    var k := |path| - 1;
    if k > 0 {
      RenderedAfterM(path[..k]);
    }
    assert Render(path) == Render(path[..k]) + "/" + Written(path[k]);
  }

  lemma SplitFirst(s: string)
    ensures Split("m/" + s) == ["m"] + Split(s)
  {
    var slashed := "/" + s;
    assert ("m/" + s)[1..] == slashed && slashed[1..] == s;
    assert Split(slashed) == [""] + Split(s);
    assert ("m/" + s)[0] == 'm' && ['m'] + Split(slashed)[0] == "m";
  }

  lemma WrittenStart(c: uint32)
    ensures TrimSpace(Written(c)) == Written(c) && Written(c) != "" && Written(c) != "m"
  {
    var n := if c >= HARDENED then c - HARDENED else c;
    DecimalShape(n);
    NothingToTrim(Written(c));
  }

  lemma {:induction false} ComponentsGrow(parts: seq<string>, root: DerivationPath)
    ensures Components(parts, root).Ok? ==> |Components(parts, root).value| == |root| + |parts|
  {
    if parts != [] && Component(parts[0]).Ok? {
      ComponentsGrow(parts[1..], root + [Component(parts[0]).value]);
    }
  }

  /** However a path was written, with spaces, in hexadecimal or relative to the default root:
      what was parsed can be written canonically and parsed again. */
  lemma ParsedIsRendered(text: string)
    requires Parsed(text).Ok?
    ensures Parsed(Render(Parsed(text).value)) == Parsed(text)
  {
    var parts := Split(text);
    ComponentsGrow(parts, DEFAULT_ROOT);
    ComponentsGrow(parts[1..], []);
    RoundTrip(Parsed(text).value);
  }

  /** A hardened component cannot be written with a number of the hardened range, while a
      component without a prime can. */
  lemma HardenedRange(n: nat)
    ensures Component(Decimal(n)) == if n <= MAX_UINT32 then Ok(n) else Err(OutOfRange)
    ensures Component(Decimal(n) + "'") == if n < HARDENED then Ok(HARDENED + n) else Err(OutOfRange)
  {
    var primed := Decimal(n) + "'";
    DecimalShape(n);
    IntegerOfDecimal(n);
    NothingToTrim(Decimal(n));
    NothingToTrim(primed);
    assert primed[..|primed| - 1] == Decimal(n);
  }

  predicate IsBlank(s: string) {
    forall i :: 0 <= i < |s| ==> IsSpace(s[i])
  }

  /** White space around the parts of a path does not matter, nor before the prime. */
  lemma WhitespaceIgnored(left: string, part: string, right: string)
    requires IsBlank(left) && IsBlank(right)
    ensures TrimSpace(left + part + right) == TrimSpace(part)
    ensures Component(left + part + right) == Component(part)
  {
    assert left + part + right == left + (part + right);
    TrimmedLeft(left, part + right);
    TrimmedBefore(part, right);
    if TrimLeft(part) == "" {
      TrimmedRight("", right);
      assert "" + right == right;
      TrimmedLeft(right, "");
      assert right + "" == right;
    } else {
      TrimmedRight(TrimLeft(part), right);
    }
  }

  lemma {:induction false} TrimmedLeft(blank: string, s: string)
    requires IsBlank(blank)
    ensures TrimLeft(blank + s) == TrimLeft(s)
  {
    if blank == "" {
      assert blank + s == s;
    } else {
      assert (blank + s)[1..] == blank[1..] + s;
      TrimmedLeft(blank[1..], s);
    }
  }

  lemma {:induction false} TrimmedRight(s: string, blank: string)
    requires IsBlank(blank)
    ensures TrimRight(s + blank) == TrimRight(s)
  {
    if blank == "" {
      assert s + blank == s;
    } else {
      var k := |blank| - 1;
      assert (s + blank)[..|s + blank| - 1] == s + blank[..k];
      TrimmedRight(s, blank[..k]);
    }
  }

  /** Trimming from the left stops before the right end, unless all is blank. */
  lemma {:induction false} TrimmedBefore(s: string, blank: string)
    requires IsBlank(blank)
    ensures TrimLeft(s + blank) == if TrimLeft(s) == "" then "" else TrimLeft(s) + blank
  {
    if s == "" {
      assert s + blank == blank + "";
      TrimmedLeft(blank, "");
    } else if IsSpace(s[0]) {
      assert (s + blank)[1..] == s[1..] + blank;
      TrimmedBefore(s[1..], blank);
    }
  }
}
