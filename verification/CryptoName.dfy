/**
 * Names of crypto algorithms built from templates, such as
 * authenc(hmac(sha1),cbc(aes)): how they are printed, and how algboss.c takes
 * such a name apart again, one level at a time.
 */
module CryptoName {
  import opened Block

  const CRYPTO_MAX_ATTRS := 32

  // ----- characters (ctype.c) ----------------------------------------------

  predicate IsDigit(c: char) {
    '0' <= c <= '9'
  }

  predicate IsAlnum(c: char) {
    || IsDigit(c) || 'A' <= c <= 'Z' || 'a' <= c <= 'z'
    || (0xC0 <= c as int <= 0xFF && c as int != 0xD7 && c as int != 0xF7)
  }

  predicate NameChar(c: char) {
    IsAlnum(c) || c == '-' || c == '_'
  }

  predicate AllDigits(s: string) {
    forall i | 0 <= i < |s| :: IsDigit(s[i])
  }

  // ----- what a name is made of --------------------------------------------

  /** A template applied to arguments, or, without arguments, a plain name or number. */
  datatype Name = Name(text: string, args: seq<Name>)

  ghost predicate WellFormed(n: Name) {
    && n.text != [] && (forall i | 0 <= i < |n.text| :: NameChar(n.text[i]))
    && (forall a | a in n.args :: WellFormed(a))
  }

  function PrintAll(args: seq<Name>): string
    requires args != []
    decreases args
  {
    if |args| == 1 then Print(args[0]) else Print(args[0]) + "," + PrintAll(args[1..])
  }

  function Print(n: Name): string
    decreases n
  {
    if n.args == [] then n.text else n.text + "(" + PrintAll(n.args) + ")"
  }

  // ----- numbers (vsprintf.c) ----------------------------------------------

  predicate IsXDigit(c: char) {
    IsDigit(c) || 'A' <= c <= 'F' || 'a' <= c <= 'f'
  }

  function DigitValue(c: char): (v: nat)
    requires IsXDigit(c)
    ensures v < 16
  {
    if IsDigit(c) then c as int - '0' as int
    else if c <= 'F' then c as int - 'A' as int + 10
    else c as int - 'a' as int + 10
  }

  /** The loop of simple_strtoull: digits are taken as long as the base allows them. */
  function Digits(s: string, base: nat, acc: nat): nat {
    if s == [] || !IsXDigit(s[0]) || DigitValue(s[0]) >= base then acc
    else Digits(s[1..], base, acc * base + DigitValue(s[0]))
  }

  predicate IsX(c: char) {
    c == 'x' || c == 'X'
  }

  /** simple_strtol with a guessed base; the result is stored in 32 bits. */
  function StrTol(s: string): nat {
    (if |s| >= 3 && s[0] == '0' && IsX(s[1]) && IsXDigit(s[2]) then Digits(s[2..], 16, 0)
     else if s != [] && s[0] == '0' then Digits(s, 8, 0)
     else Digits(s, 10, 0)) % 0x1_0000_0000
  }

  // ----- parsing -----------------------------------------------------------

  datatype Attr = Alg(name: string) | Num(value: nat)

  datatype Param = Param(template: string, attrs: seq<Attr>)

  /** How many name characters a string starts with. */
  function Run(s: string): (k: nat)
    ensures k <= |s|
    ensures forall i | 0 <= i < k :: NameChar(s[i])
    ensures k < |s| ==> !NameChar(s[k])
  {
    if s == [] || !NameChar(s[0]) then 0 else 1 + Run(s[1..])
  }

  /** How far the parenthesis is that closes `depth` others and one more. */
  function Close(s: string, depth: nat): (r: Option<nat>)
    ensures r.Some? ==> 0 < r.value <= |s|
  {
    if s == [] then None
    else if s[0] == ')' && depth == 0 then Some(1)
    else
      match Close(s[1..], if s[0] == '(' then depth + 1 else if s[0] == ')' then depth - 1 else depth)
      case None => None
      case Some(m) => Some(m + 1)
  }

  /** The length of one argument: a run of name characters and what follows in parentheses. */
  function Token(s: string): (r: Option<nat>)
    ensures r.Some? ==> r.value <= |s|
  {
    var k := Run(s);
    if k < |s| && s[k] == '(' then
      match Close(s[k + 1..], 0)
      case None => None
      case Some(m) => Some(k + 1 + m)
    else Some(k)
  }

  /** The arguments from `s` on, when `i` have been read. */
  function Tokens(s: string, i: nat): (r: Option<seq<string>>)
    decreases |s|
  {
    var t := Token(s);
    if t.None? || t.value == 0 || i + 1 >= CRYPTO_MAX_ATTRS || t.value == |s| then None
    else if s[t.value] == ')' then Some([s[..t.value]])
    else if s[t.value] != ',' then None
    else
      match Tokens(s[t.value + 1..], i + 1)
      case None => None
      case Some(rest) => Some([s[..t.value]] + rest)
  }

  /** An argument as the template will see it. */
  function AttrOf(token: string): Attr {
    if AllDigits(token) then Num(StrTol(token)) else Alg(token)
  }

  function AttrsOf(tokens: seq<string>): (r: seq<Attr>)
    ensures |r| == |tokens|
    ensures forall i | 0 <= i < |tokens| :: r[i] == AttrOf(tokens[i])
  {
    seq(|tokens|, i requires 0 <= i < |tokens| => AttrOf(tokens[i]))
  }

  function Parse(s: string): Option<Param> {
    var k := Run(s);
    if k == 0 || k == |s| || s[k] != '(' then None
    else
      match Tokens(s[k + 1..], 0)
      case None => None
      case Some(ts) => Some(Param(s[..k], AttrsOf(ts)))
  }

  // ----- parsing undoes printing -------------------------------------------

  ghost predicate Stops(rest: string) {
    rest == [] || !NameChar(rest[0])
  }

  lemma {:induction false} RunIs(t: string, rest: string)
    requires (forall i | 0 <= i < |t| :: NameChar(t[i])) && Stops(rest)
    ensures Run(t + rest) == |t|
  {
    if t == [] {
      assert t + rest == rest;
    } else {
      assert (t + rest)[1..] == t[1..] + rest;
      RunIs(t[1..], rest);
    }
  }

  function Shift(r: Option<nat>, n: nat): Option<nat> {
    if r.None? then None else Some(r.value + n)
  }

  /** Name characters do not matter to the count of parentheses. */
  lemma {:induction false} CloseText(t: string, rest: string, depth: nat)
    requires forall i | 0 <= i < |t| :: NameChar(t[i])
    ensures Close(t + rest, depth) == Shift(Close(rest, depth), |t|)
  {
    if t == [] {
      assert t + rest == rest;
    } else {
      assert (t + rest)[1..] == t[1..] + rest;
      assert NameChar(t[0]);
      CloseText(t[1..], rest, depth);
    }
  }

  lemma {:induction false} CloseNames(args: seq<Name>, rest: string, depth: nat)
    requires args != [] && forall a | a in args :: WellFormed(a)
    ensures Close(PrintAll(args) + rest, depth) == Shift(Close(rest, depth), |PrintAll(args)|)
    decreases args
  {
    if |args| == 1 {
      CloseName(args[0], rest, depth);
    } else {
      var more := PrintAll(args[1..]) + rest;
      assert PrintAll(args) + rest == Print(args[0]) + ([','] + more);
      CloseName(args[0], [','] + more, depth);
      assert ([','] + more)[1..] == more;
      CloseNames(args[1..], rest, depth);
    }
  }

  /** A printed name is balanced: whatever is open before it is open after it. */
  lemma {:induction false} CloseName(n: Name, rest: string, depth: nat)
    requires WellFormed(n)
    ensures Close(Print(n) + rest, depth) == Shift(Close(rest, depth), |Print(n)|)
    decreases n
  {
    hide NameChar, PrintAll;
    if n.args == [] {
      CloseText(n.text, rest, depth);
    } else {
      var inner := PrintAll(n.args) + ([')'] + rest);
      assert Print(n) + rest == n.text + (['('] + inner);
      CloseText(n.text, ['('] + inner, depth);
      assert (['('] + inner)[1..] == inner;
      CloseNames(n.args, [')'] + rest, depth + 1);
      assert ([')'] + rest)[1..] == rest;
    }
  }

  lemma Parens()
    ensures !NameChar('(') && !NameChar(')') && !NameChar(',')
  {
  }

  lemma CloseHere(rest: string)
    ensures Close([')'] + rest, 0) == Some(1)
  {
  }

  /** One argument is read to its end and no further. */
  lemma TokenIs(n: Name, rest: string)
    requires WellFormed(n) && Stops(rest) && (rest == [] || rest[0] != '(')
    ensures Token(Print(n) + rest) == Some(|Print(n)|) && Print(n) != []
  {
    hide Close, Run, PrintAll, NameChar;
    if n.args == [] {
      RunIs(n.text, rest);
    } else {
      var inner := PrintAll(n.args) + ([')'] + rest);
      var s := Print(n) + rest;
      assert s == n.text + (['('] + inner);
      Parens();
      RunIs(n.text, ['('] + inner);
      assert s[|n.text|] == '(' && s[|n.text| + 1..] == inner;
      CloseNames(n.args, [')'] + rest, 0);
      CloseHere(rest);
    }
  }

  function Printed(args: seq<Name>): (r: seq<string>)
    ensures |r| == |args| && forall i | 0 <= i < |args| :: r[i] == Print(args[i])
  {
    seq(|args|, i requires 0 <= i < |args| => Print(args[i]))
  }

  lemma TokensLast(first: string, rest: string, i: nat)
    requires first != [] && Token(first + ([')'] + rest)) == Some(|first|)
    ensures Tokens(first + ([')'] + rest), i) == if i + 1 < CRYPTO_MAX_ATTRS then Some([first]) else None
  {
    hide Token;
    var s := first + ([')'] + rest);
    assert s[..|first|] == first && s[|first|] == ')';
  }

  function Prepend(done: seq<string>, r: Option<seq<string>>): Option<seq<string>> {
    if r.None? then None else Some(done + r.value)
  }

  lemma TokensMore(first: string, more: string, i: nat)
    requires first != [] && Token(first + ([','] + more)) == Some(|first|)
    ensures Tokens(first + ([','] + more), i) ==
            if i + 1 < CRYPTO_MAX_ATTRS then Prepend([first], Tokens(more, i + 1)) else None
  {
    hide Token;
    var s := first + ([','] + more);
    assert s[..|first|] == first && s[|first|] == ',' && s[|first| + 1..] == more;
  }

  lemma {:induction false} TokensAre(args: seq<Name>, rest: string, i: nat)
    requires args != [] && forall a | a in args :: WellFormed(a)
    ensures Tokens(PrintAll(args) + [')'] + rest, i) ==
            if i + |args| < CRYPTO_MAX_ATTRS then Some(Printed(args)) else None
    decreases |args|
  {
    hide Tokens, Token, Print, WellFormed, NameChar;
    var s := PrintAll(args) + [')'] + rest;
    var first := Print(args[0]);
    Parens();
    if |args| == 1 {
      assert s == first + ([')'] + rest);
      TokenIs(args[0], [')'] + rest);
      TokensLast(first, rest, i);
      assert Printed(args) == [first];
    } else {
      var more := PrintAll(args[1..]) + [')'] + rest;
      assert s == first + ([','] + more);
      TokenIs(args[0], [','] + more);
      TokensMore(first, more, i);
      TokensAre(args[1..], rest, i + 1);
      assert Printed(args) == [first] + Printed(args[1..]);
    }
  }

  /**
   * Parsing a printed name gives back the template and the printed arguments,
   * however deeply they are nested: if and only if there are fewer than
   * CRYPTO_MAX_ATTRS of them.
   */
  lemma RoundTrip(n: Name, rest: string)
    requires WellFormed(n) && n.args != []
    ensures Parse(Print(n) + rest) ==
            if |n.args| < CRYPTO_MAX_ATTRS then Some(Param(n.text, AttrsOf(Printed(n.args)))) else None
  {
    var inner := PrintAll(n.args) + [')'] + rest;
    var s := Print(n) + rest;
    assert s == n.text + (['('] + inner);
    RunIs(n.text, ['('] + inner);
    assert s[..|n.text|] == n.text && s[|n.text| + 1..] == inner;
    TokensAre(n.args, rest, 0);
  }

  // ----- what is accepted was a template with arguments --------------------

  function Join(tokens: seq<string>): string
    requires tokens != []
  {
    if |tokens| == 1 then tokens[0] else tokens[0] + "," + Join(tokens[1..])
  }

  lemma {:induction false} RunPrefix(s: string, n: nat)
    requires n <= |s|
    ensures Run(s[..n]) == if n <= Run(s) then n else Run(s)
  {
    if s != [] && n > 0 {
      assert s[..n][1..] == s[1..][..n - 1];
      RunPrefix(s[1..], n - 1);
    }
  }

  lemma {:induction false} ClosePrefix(s: string, depth: nat)
    requires Close(s, depth).Some?
    ensures var m := Close(s, depth).value; Close(s[..m], depth) == Some(m) && s[m - 1] == ')'
  {
    var m := Close(s, depth).value;
    if !(s[0] == ')' && depth == 0) {
      assert s[..m][1..] == s[1..][..m - 1];
      ClosePrefix(s[1..], if s[0] == '(' then depth + 1 else if s[0] == ')' then depth - 1 else depth);
    }
  }

  /** An argument taken by itself is an argument. */
  lemma TokenPrefix(s: string)
    requires Token(s).Some?
    ensures Token(s[..Token(s).value]) == Token(s)
  {
    hide Run, Close;
    var k, t := Run(s), Token(s).value;
    RunPrefix(s, t);
    if k < |s| && s[k] == '(' {
      ClosePrefix(s[k + 1..], 0);
      assert s[..t][k + 1..] == s[k + 1..][..t - k - 1];
    }
  }

  lemma JoinSingle(t: string)
    ensures Join([t]) == t
  {
  }

  lemma JoinOne(s: string, t: nat, rest: seq<string>)
    requires t < |s| && s[t] == ',' && rest != []
    requires |Join(rest)| < |s| - t - 1 && s[t + 1..][..|Join(rest)| + 1] == Join(rest) + ")"
    ensures var ts := [s[..t]] + rest;
      && |Join(ts)| == t + 1 + |Join(rest)|
      && s[..|Join(ts)| + 1] == Join(ts) + ")"
  {
    var ts := [s[..t]] + rest;
    assert ts[1..] == rest;
    var m := |Join(rest)| + 1;
    assert s[..t + 1 + m] == s[..t] + [','] + s[t + 1..][..m];
  }

  lemma {:induction false} TokensSound(s: string, i: nat)
    requires Tokens(s, i).Some?
    ensures var ts := Tokens(s, i).value;
      && ts != [] && i + |ts| < CRYPTO_MAX_ATTRS
      && (forall t | t in ts :: t != [] && Token(t) == Some(|t|))
      && |Join(ts)| < |s| && s[..|Join(ts)| + 1] == Join(ts) + ")"
    decreases |s|
  {
    hide Token, Join;
    TokenPrefix(s);
    var t := Token(s).value;
    JoinSingle(s[..t]);
    if s[t] == ',' {
      TokensSound(s[t + 1..], i + 1);
      JoinOne(s, t, Tokens(s[t + 1..], i + 1).value);
    }
  }

  /** Whatever is accepted starts with the template and its arguments in parentheses. */
  lemma ParseSound(s: string) returns (ts: seq<string>)
    requires Parse(s).Some?
    ensures 0 < |ts| < CRYPTO_MAX_ATTRS && forall t | t in ts :: t != [] && Token(t) == Some(|t|)
    ensures var p, n := Parse(s).value, |Parse(s).value.template| + |Join(ts)| + 2;
      && p.template != [] && (forall i | 0 <= i < |p.template| :: NameChar(p.template[i]))
      && p.attrs == AttrsOf(ts)
      && n <= |s| && s[..n] == p.template + "(" + Join(ts) + ")"
  {
    hide Tokens, Token, NameChar, Join;
    var k := Run(s);
    TokensSound(s[k + 1..], 0);
    ts := Tokens(s[k + 1..], 0).value;
    var m := |Join(ts)| + 1;
    assert s[..k + 1 + m] == s[..k] + ['('] + s[k + 1..][..m];
  }

  // ----- numbers -----------------------------------------------------------

  function Decimal(v: nat): (s: string)
    ensures s != [] && AllDigits(s) && (s[0] == '0' ==> v == 0)
  {
    var d := [('0' as int + v % 10) as char];
    if v < 10 then d else Decimal(v / 10) + d
  }

  function Octal(v: nat): (s: string)
    ensures s != [] && AllDigits(s)
  {
    var d := [('0' as int + v % 8) as char];
    if v < 8 then d else Octal(v / 8) + d
  }

  lemma {:induction false} DigitsDecimal(v: nat, rest: string)
    ensures Digits(Decimal(v) + rest, 10, 0) == Digits(rest, 10, v)
  {
    var d := [('0' as int + v % 10) as char];
    assert (d + rest)[1..] == rest;
    assert DigitValue(d[0]) == v % 10;
    if v >= 10 {
      assert Decimal(v) + rest == Decimal(v / 10) + (d + rest);
      DigitsDecimal(v / 10, d + rest);
    }
  }

  lemma {:induction false} DigitsOctal(v: nat, rest: string)
    ensures Digits(Octal(v) + rest, 8, 0) == Digits(rest, 8, v)
  {
    var d := [('0' as int + v % 8) as char];
    assert (d + rest)[1..] == rest;
    assert DigitValue(d[0]) == v % 8;
    if v >= 8 {
      assert Octal(v) + rest == Octal(v / 8) + (d + rest);
      DigitsOctal(v / 8, d + rest);
    }
  }

  /** The digits after the end of an argument are never read. */
  lemma {:induction false} DigitsEnd(t: string, rest: string, base: nat, acc: nat)
    requires AllDigits(t) && Stops(rest)
    ensures Digits(t + rest, base, acc) == Digits(t, base, acc)
    decreases |t|
  {
    if t == [] {
      assert t + rest == rest;
    } else {
      assert (t + rest)[1..] == t[1..] + rest;
      if DigitValue(t[0]) < base {
        DigitsEnd(t[1..], rest, base, acc * base + DigitValue(t[0]));
      }
    }
  }

  lemma StrTolEnds(t: string, rest: string)
    requires t != [] && AllDigits(t) && Stops(rest)
    ensures StrTol(t + rest) == StrTol(t)
  {
    DigitsEnd(t, rest, 8, 0);
    DigitsEnd(t, rest, 10, 0);
    if |t| >= 2 {
      assert (t + rest)[1] == t[1] && IsDigit(t[1]);
    } else if rest != [] {
      assert (t + rest)[1] == rest[0] && !NameChar(rest[0]);
    }
  }

  lemma NumberEnds(v: nat, rest: string)
    requires Stops(rest)
    ensures StrTol(Decimal(v) + rest) == v % 0x1_0000_0000
  {
    var s := Decimal(v) + rest;
    if v == 0 {
      StrTolEnds("0", rest);
      assert StrTol("0") == 0 by {
        assert "0"[1..] == [];
      }
    } else {
      DigitsDecimal(v, rest);
    }
  }

  /** A number comes back as itself, as far as 32 bits go, whatever follows the argument. */
  lemma NumberRoundTrip(v: nat, rest: string)
    requires Stops(rest)
    ensures StrTol(Decimal(v) + rest) == v % 0x1_0000_0000
    ensures AttrOf(Decimal(v)) == Num(v % 0x1_0000_0000)
  {
    NumberEnds(v, rest);
    NumberEnds(v, []);
    assert Decimal(v) + [] == Decimal(v);
  }

  lemma OctalEnds(v: nat, rest: string)
    requires Stops(rest)
    ensures StrTol("0" + Octal(v) + rest) == v % 0x1_0000_0000
  {
    var s := "0" + Octal(v) + rest;
    assert s[0] == '0' && s[1] == Octal(v)[0] && IsDigit(s[1]);
    assert s[1..] == Octal(v) + rest;
    DigitsOctal(v, rest);
    assert DigitValue(s[0]) == 0;
  }

  /** With a zero before it, a number is read as octal. */
  lemma OctalRoundTrip(v: nat, rest: string)
    requires Stops(rest)
    ensures StrTol("0" + Octal(v) + rest) == v % 0x1_0000_0000
    ensures AttrOf("0" + Octal(v)) == Num(v % 0x1_0000_0000)
  {
    OctalEnds(v, rest);
    OctalEnds(v, []);
    assert "0" + Octal(v) + [] == "0" + Octal(v);
    assert AllDigits("0" + Octal(v));
  }

  /** A name is read as an algorithm, digits and all, unless it is all digits. */
  lemma AlgorithmRoundTrip(n: Name)
    requires WellFormed(n)
    ensures AttrOf(Print(n)) == Alg(Print(n)) <==> n.args != [] || exists i :: 0 <= i < |n.text| && !IsDigit(n.text[i])
  {
    if n.args != [] {
      assert Print(n)[|n.text|] == '(';
    }
  }

  // ----- the loops of cryptomgr_schedule_probe -----------------------------

  /** An entry of the table of attributes: a null pointer, the type, or an argument. */
  datatype Ref = Null | Type | Arg(index: nat)

  /** A C string: the terminator comes after the last character, and nothing comes after it. */
  function At(name: string, p: nat): char
    requires p <= |name|
  {
    if p == |name| then '\0' else name[p]
  }

  lemma NoDigits(s: string)
    requires s == []
    ensures AllDigits(s)
  {
  }

  lemma MoreDigits(s: string, c: char)
    ensures AllDigits(s + [c]) <==> AllDigits(s) && IsDigit(c)
  {
    assert (s + [c])[|s|] == c;
    assert forall i | 0 <= i < |s| :: (s + [c])[i] == s[i];
  }

  lemma Terminator()
    ensures !NameChar('\0')
  {
  }

  /** A run of name characters, noting whether there are others than digits */
  method ScanRun(name: string, p: nat) returns (q: nat, notNum: bool)
    requires p <= |name|
    ensures q == p + Run(name[p..]) && (notNum <==> !AllDigits(name[p..q]))
  {
    hide NameChar, AllDigits;
    q, notNum := p, false;
    Terminator();
    NoDigits(name[p..q]);
    while NameChar(At(name, q))
      invariant p <= q <= |name| && q + Run(name[q..]) == p + Run(name[p..])
      invariant notNum <==> !AllDigits(name[p..q])
      decreases |name| - q
    {
      assert name[q..][1..] == name[q + 1..];
      assert name[p..q + 1] == name[p..q] + [name[q]];
      MoreDigits(name[p..q], name[q]);
      notNum := notNum || !IsDigit(name[q]);
      q := q + 1;
    }
  }

  /** The parenthesis that closes the one at `p` */
  method SkipNested(name: string, p: nat) returns (found: bool, q: nat)
    requires p < |name| && forall i | 0 <= i < |name| :: name[i] != '\0'
    ensures found <==> Close(name[p + 1..], 0).Some?
    ensures found ==> q < |name| && q == p + Close(name[p + 1..], 0).value
  {
    q := p;
    var recursion := 0;
    while true
      invariant p <= q < |name|
      invariant Shift(Close(name[q + 1..], recursion), q - p) == Close(name[p + 1..], 0)
      decreases |name| - q
    {
      q := q + 1;
      if At(name, q) == '\0' {
        return false, q;
      }
      assert name[q..][1..] == name[q + 1..];
      if name[q] == '(' {
        recursion := recursion + 1;
      } else if name[q] == ')' {
        if recursion == 0 {
          return true, q;
        }
        recursion := recursion - 1;
      }
    }
  }

  lemma NotDigits(s: string, k: nat)
    requires k < |s| && s[k] == '('
    ensures !AllDigits(s)
  {
  }

  /** One argument, and where it ends */
  method ScanArgument(name: string, p: nat) returns (found: bool, q: nat, notNum: bool)
    requires p <= |name| && forall i | 0 <= i < |name| :: name[i] != '\0'
    ensures found <==> Token(name[p..]).Some?
    ensures found ==> q <= |name| && q == p + Token(name[p..]).value
    ensures found ==> (notNum <==> !AllDigits(name[p..q]))
  {
    hide Run, Close, AllDigits;
    q, notNum := ScanRun(name, p);
    ghost var k := q - p;
    found := true;
    if At(name, q) == '(' {
      assert name[p..][k] == '(' && name[p..][k + 1..] == name[q + 1..];
      var start := q;
      found, q := SkipNested(name, q);
      if !found {
        return;
      }
      notNum := true;
      q := q + 1;
      NotDigits(name[p..q], k);
    } else {
      assert k < |name[p..]| ==> name[p..][k] == name[q];
    }
  }

  /** The filled part of the two tables */
  ghost predicate Filled(attrs: seq<Attr>, tb: seq<Ref>, done: seq<string>) {
    && |done| <= |attrs| && |done| < |tb|
    && attrs[..|done|] == AttrsOf(done)
    && forall j | 0 <= j < |done| :: tb[j + 1] == Arg(j)
  }

  lemma FillOne(attrs: seq<Attr>, tb: seq<Ref>, done: seq<string>, token: string)
    requires Filled(attrs, tb, done) && |done| < |attrs| && |done| + 1 < |tb|
    ensures Filled(attrs[|done| := AttrOf(token)], tb[|done| + 1 := Arg(|done|)], done + [token])
  {
    hide AttrOf;
    var i := |done|;
    var attrs' := attrs[i := AttrOf(token)];
    assert attrs'[..i + 1] == attrs[..i] + [AttrOf(token)];
    assert AttrsOf(done + [token]) == AttrsOf(done) + [AttrOf(token)];
  }

  /** One argument more: what has been read and what is to come still make up the whole. */
  lemma TokensNext(name: string, start: nat, i: nat, done: seq<string>, all: Option<seq<string>>)
    requires start <= |name| && all == Prepend(done, Tokens(name[start..], i))
    ensures var t := Token(name[start..]);
      && (t.None? || t.value == 0 || i + 1 >= CRYPTO_MAX_ATTRS ==> all == None)
      && (t.Some? && t.value > 0 && i + 1 < CRYPTO_MAX_ATTRS ==>
        var q := start + t.value;
        && (q == |name| ==> all == None)
        && (q < |name| && name[q] == ')' ==> all == Some(done + [name[start..q]]))
        && (q < |name| && name[q] == ',' ==> all == Prepend(done + [name[start..q]], Tokens(name[q + 1..], i + 1)))
        && (q < |name| && name[q] != ')' && name[q] != ',' ==> all == None))
  {
    hide Token;
    var s := name[start..];
    var t := Token(s);
    if t.Some? && start + t.value < |name| {
      var q := start + t.value;
      assert s[t.value] == name[q] && s[..t.value] == name[start..q] && s[t.value + 1..] == name[q + 1..];
      if Tokens(name[q + 1..], i + 1).Some? {
        var rest := Tokens(name[q + 1..], i + 1).value;
        assert done + ([name[start..q]] + rest) == done + [name[start..q]] + rest;
      }
    }
  }

  /** Although the number is read from the name itself, only the argument counts. */
  lemma ReadNumber(name: string, start: nat, q: nat)
    requires start < q <= |name| && AllDigits(name[start..q]) && Token(name[start..]) == Some(q - start)
    ensures StrTol(name[start..]) == StrTol(name[start..q])
  {
    hide StrTol;
    var s, t := name[start..], q - start;
    var k := Run(s);
    assert s[..t] == name[start..q];
    if k < |s| && s[k] == '(' {
      NotDigits(s[..t], k);
      assert false;
    }
    assert s == s[..t] + s[t..];
    StrTolEnds(s[..t], s[t..]);
  }

  method StoreArgument(name: string, start: nat, q: nat, notNum: bool, attrs: array<Attr>, tb: array<Ref>, i: nat,
                       ghost done: seq<string>)
    requires start < q <= |name| && Token(name[start..]) == Some(q - start) && (notNum <==> !AllDigits(name[start..q]))
    requires i == |done| < attrs.Length && i + 1 < tb.Length && Filled(attrs[..], tb[..], done)
    modifies attrs, tb
    ensures Filled(attrs[..], tb[..], done + [name[start..q]])
  {
    hide Token, AllDigits, Filled, StrTol;
    ghost var attrs0, tb0, token := attrs[..], tb[..], name[start..q];
    FillOne(attrs0, tb0, done, token);
    if notNum {
      attrs[i] := Alg(name[start..q]);
    } else {
      ReadNumber(name, start, q);
      attrs[i] := Num(StrTol(name[start..]));
    }
    tb[i + 1] := Arg(i);
    assert attrs[..] == attrs0[i := AttrOf(token)];
    assert tb[..] == tb0[i + 1 := Arg(i)];
  }

  lemma FillStart(attrs: seq<Attr>, tb: seq<Ref>)
    requires |tb| > 0
    ensures Filled(attrs, tb, [])
  {
  }

  lemma PrependNothing(r: Option<seq<string>>)
    ensures Prepend([], r) == r
  {
    if r.Some? {
      assert [] + r.value == r.value;
    }
  }

  /** Its main loop, from the opening parenthesis on */
  method ReadArguments(name: string, open: nat, attrs: array<Attr>, tb: array<Ref>) returns (ok: bool, n: nat)
    requires open < |name| && forall i | 0 <= i < |name| :: name[i] != '\0'
    requires attrs.Length == CRYPTO_MAX_ATTRS && tb.Length == CRYPTO_MAX_ATTRS + 2
    modifies attrs, tb
    ensures ok <==> Tokens(name[open + 1..], 0).Some?
    ensures ok ==>
      n == |Tokens(name[open + 1..], 0).value| && Filled(attrs[..], tb[..], Tokens(name[open + 1..], 0).value)
  {
    hide Tokens, Token, AllDigits, Filled;
    ghost var all, done := Tokens(name[open + 1..], 0), [];
    var p, i := open, 0;
    ok, n := false, 0;
    FillStart(attrs[..], tb[..]);
    PrependNothing(all);
    while true
      invariant p < |name| && i == |done| < CRYPTO_MAX_ATTRS && Filled(attrs[..], tb[..], done)
      invariant all == Prepend(done, Tokens(name[p + 1..], i))
      decreases |name| - p
    {
      var start := p + 1;
      TokensNext(name, start, i, done, all);
      var found, q, notNum := ScanArgument(name, start);
      if !found || q == start {
        return;
      }
      StoreArgument(name, start, q, notNum, attrs, tb, i, done);
      p, i, done := q, i + 1, done + [name[start..q]];
      if i >= CRYPTO_MAX_ATTRS {
        return;
      }
      if At(name, p) == ')' {
        break;
      }
      if At(name, p) != ',' {
        return;
      }
    }
    ok, n := true, i;
  }

  lemma FilledTables(attrs: seq<Attr>, tb: seq<Ref>, done: seq<string>)
    requires Filled(attrs, tb, done)
    ensures |done| <= |attrs| && |done| < |tb|
    ensures attrs[..|done|] == AttrsOf(done) && forall j | 0 <= j < |done| :: tb[j + 1] == Arg(j)
  {
  }

  /**
   * The parser of cryptomgr_schedule_probe. It stays before the terminator and
   * within its tables, and fills them with what Parse says.
   */
  method ScheduleProbe(name: string) returns (ok: bool, template: string, n: nat, attrs: array<Attr>, tb: array<Ref>)
    requires forall i | 0 <= i < |name| :: name[i] != '\0'
    ensures attrs.Length == CRYPTO_MAX_ATTRS && tb.Length == CRYPTO_MAX_ATTRS + 2
    ensures ok <==> Parse(name).Some?
    ensures ok ==> 0 < n < CRYPTO_MAX_ATTRS && Parse(name).value == Param(template, attrs[..n])
    ensures ok ==> tb[0] == Type && tb[n + 1] == Null && forall j | 0 <= j < n :: tb[j + 1] == Arg(j)
  {
    hide Run, Tokens, Token, AllDigits, Filled;
    attrs := new Attr[CRYPTO_MAX_ATTRS](_ => Num(0));
    tb := new Ref[CRYPTO_MAX_ATTRS + 2](_ => Null);
    ok, template, n := false, "", 0;
    var p, _ := ScanRun(name, 0);
    assert name[0..] == name;
    if p == 0 || At(name, p) != '(' {
      return;
    }
    template := name[..p];
    ok, n := ReadArguments(name, p, attrs, tb);
    if ok {
      FilledTables(attrs[..], tb[..], Tokens(name[p + 1..], 0).value);
      TokensSound(name[p + 1..], 0);
      assert attrs[..n] == attrs[..][..n];
      tb[n + 1] := Null;
      tb[0] := Type;
    }
  }
}
