/*
 * The element trees the genxml canonicaliser works on, and the small
 * lookups it performs on them (intel_genxml.py).
 *
 * An ElementTree element is a value here: a tag, its attributes as an
 * ordered list of (key, value) pairs (a Python dict keeps insertion
 * order), an optional text and tail, and its children in order.  A
 * Python exception is a `Raise` result.
 */
module GenTree {

  datatype Option<T> = None | Some(value: T)

  /** The exceptions the canonicaliser can raise. */
  datatype PyError =
    | KeyError(key: string)
    | ValueError(literal: string)
    | AssertionError
    | RecursionError

  /** A value, or the exception raised while computing it. */
  datatype Raises<T> = Ok(value: T) | Raise(error: PyError)

  datatype Node = Node(tag: string, attrib: seq<(string, string)>, text: Option<string>,
                       tail: Option<string>, children: seq<Node>)

  // -------------------------------------------------------------------
  // Attributes
  // -------------------------------------------------------------------

  /** `list(attrib)`: the keys in order. */
  function Keys(attrib: seq<(string, string)>): (r: seq<string>)
    ensures |r| == |attrib| && forall i :: 0 <= i < |attrib| ==> r[i] == attrib[i].0
  {
    if |attrib| == 0 then [] else [attrib[0].0] + Keys(attrib[1..])
  }

  /** A dictionary holds each key once. */
  predicate UniqueKeys(attrib: seq<(string, string)>) {
    forall i, j :: 0 <= i < j < |attrib| ==> attrib[i].0 != attrib[j].0
  }

  /** Every element of the tree has a proper attribute dictionary. */
  predicate WellFormed(n: Node) {
    UniqueKeys(n.attrib) && forall i :: 0 <= i < |n.children| ==> WellFormed(n.children[i])
  }

  /** `attrib.get(key)`. */
  function Lookup(attrib: seq<(string, string)>, key: string): (r: Option<string>)
    ensures r.Some? <==> key in Keys(attrib)
    ensures r.Some? ==> (key, r.value) in attrib
    ensures r.Some? && UniqueKeys(attrib) ==> forall v :: (key, v) in attrib ==> v == r.value
  {
    if |attrib| == 0 then None
    else if attrib[0].0 == key then Some(attrib[0].1)
    else Lookup(attrib[1..], key)
  }

  /** `element.attrib[key]`. */
  function GetAttr(n: Node, key: string): (r: Raises<string>)
    ensures r.Ok? <==> key in Keys(n.attrib)
    ensures r.Ok? ==> (key, r.value) in n.attrib
    ensures r.Raise? ==> r.error == KeyError(key)
  {
    match Lookup(n.attrib, key)
    case Some(v) => Ok(v)
    case None => Raise(KeyError(key))
  }

  /** `get_filename`. */
  function GetFilename(n: Node): (r: Raises<string>)
    ensures r.Ok? <==> "filename" in Keys(n.attrib)
    ensures r.Ok? ==> ("filename", r.value) in n.attrib
  {
    GetAttr(n, "filename")
  }

  /** `get_name`. */
  function GetName(n: Node): (r: Raises<string>)
    ensures r.Ok? <==> "name" in Keys(n.attrib)
    ensures r.Ok? ==> ("name", r.value) in n.attrib
  {
    GetAttr(n, "name")
  }

  /** `get_value`: the `value` attribute read as a Python integer literal. */
  function GetValue(n: Node): (r: Raises<int>)
    ensures r.Ok? <==> "value" in Keys(n.attrib) && ParseInt(Lookup(n.attrib, "value").value).Ok?
  {
    match GetAttr(n, "value")
    case Raise(e) => Raise(e)
    case Ok(s) => ParseInt(s)
  }

  /** `get_start`: the `start` attribute read as a Python integer literal. */
  function GetStart(n: Node): (r: Raises<int>)
    ensures r.Ok? <==> "start" in Keys(n.attrib) && ParseInt(Lookup(n.attrib, "start").value).Ok?
  {
    match GetAttr(n, "start")
    case Raise(e) => Raise(e)
    case Ok(s) => ParseInt(s)
  }

  // -------------------------------------------------------------------
  // int(s, 0)
  // -------------------------------------------------------------------

  /** The value of one digit character, in any base up to 16. */
  function DigitVal(c: char): (r: Option<nat>)
    ensures r.Some? ==> r.value < 16
  {
    if '0' <= c <= '9' then Some(c as int - '0' as int)
    else if 'a' <= c <= 'f' then Some(c as int - 'a' as int + 10)
    else if 'A' <= c <= 'F' then Some(c as int - 'A' as int + 10)
    else None
  }

  predicate IsDigitIn(c: char, base: nat) {
    DigitVal(c).Some? && DigitVal(c).value < base
  }

  /** The value of a string of base-`base` digits, most significant first. */
  function DigitsValue(s: string, base: nat): nat {
    if |s| == 0 then 0 else DigitsValue(s[..|s| - 1], base) * base + DigitOf(s[|s| - 1])
  }

  function DigitOf(c: char): nat {
    match DigitVal(c)
    case Some(d) => d
    case None => 0
  }

  /** A non-empty run of base-`base` digits. */
  function Digits(s: string, base: nat): (r: Option<nat>)
    ensures r.Some? <==> |s| > 0 && forall i :: 0 <= i < |s| ==> IsDigitIn(s[i], base)
  {
    if |s| > 0 && forall i :: 0 <= i < |s| ==> IsDigitIn(s[i], base) then Some(DigitsValue(s, base))
    else None
  }

  /** An unsigned Python integer literal: `0x`, `0o` or `0b` and digits of
      that base, or a decimal literal, which has no leading zero unless
      it is all zeros. */
  function ParseUnsigned(s: string): Option<nat> {
    if |s| >= 2 && s[0] == '0' && (s[1] == 'x' || s[1] == 'X') then Digits(s[2..], 16)
    else if |s| >= 2 && s[0] == '0' && (s[1] == 'o' || s[1] == 'O') then Digits(s[2..], 8)
    else if |s| >= 2 && s[0] == '0' && (s[1] == 'b' || s[1] == 'B') then Digits(s[2..], 2)
    else if |s| > 0 && s[0] == '0' then
      (if forall i :: 0 <= i < |s| ==> s[i] == '0' then Some(0) else None)
    else Digits(s, 10)
  }

  /** `int(s, 0)`: an optional sign and an unsigned literal; anything
      else raises ValueError. */
  function ParseInt(s: string): (r: Raises<int>)
    ensures r.Raise? ==> r.error == ValueError(s)
  {
    var signed := |s| > 0 && (s[0] == '-' || s[0] == '+');
    match ParseUnsigned(if signed then s[1..] else s)
    case None => Raise(ValueError(s))
    case Some(n) => Ok(if signed && s[0] == '-' then -(n as int) else n as int)
  }

  /** The decimal numeral of `n`, as Python's `str` writes it. */
  function Show(n: nat): (r: string)
    ensures |r| > 0
  {
    if n < 10 then [('0' as int + n) as char] else Show(n / 10) + [('0' as int + n % 10) as char]
  }

  /** The lower-case hexadecimal digits of `n`, as `'%x' % n` writes them. */
  function ShowHex(n: nat): (r: string)
    ensures |r| > 0
  {
    if n < 16 then [HexChar(n)] else ShowHex(n / 16) + [HexChar(n % 16)]
  }

  function HexChar(d: nat): char
    requires d < 16
  {
    if d < 10 then ('0' as int + d) as char else ('a' as int + d - 10) as char
  }

  lemma {:induction false} ShowDigits(n: nat)
    ensures forall i :: 0 <= i < |Show(n)| ==> IsDigitIn(Show(n)[i], 10)
    ensures DigitsValue(Show(n), 10) == n
    ensures Show(n)[0] == '0' ==> n == 0
  {
    if n >= 10 {
      ShowDigits(n / 10);
      var s := Show(n);
      assert s[..|s| - 1] == Show(n / 10);
    }
  }

  lemma {:induction false} ShowHexDigits(n: nat)
    ensures forall i :: 0 <= i < |ShowHex(n)| ==> IsDigitIn(ShowHex(n)[i], 16)
    ensures DigitsValue(ShowHex(n), 16) == n
  {
    if n >= 16 {
      ShowHexDigits(n / 16);
      var s := ShowHex(n);
      assert s[..|s| - 1] == ShowHex(n / 16);
    }
  }

  /** `int(str(n), 0) == n` and `int(str(-n), 0) == -n`. */
  lemma ParseShow(n: nat)
    ensures ParseInt(Show(n)) == Ok(n)
    ensures ParseInt("-" + Show(n)) == Ok(-(n as int))
  {
    ShowDigits(n);
    var s := Show(n);
    if s[0] == '0' {
      assert s == "0";
    }
    assert ("-" + s)[1..] == s;
  }

  /** `int('0x%x' % n, 0) == n`. */
  lemma ParseShowHex(n: nat)
    ensures ParseInt("0x" + ShowHex(n)) == Ok(n)
  {
    ShowHexDigits(n);
    assert ("0x" + ShowHex(n))[2..] == ShowHex(n);
  }

  // -------------------------------------------------------------------
  // The attribute descriptor table and base types
  // -------------------------------------------------------------------

  /** `GENXML_DESC`: the attributes each tag may carry, in canonical
      order; `None` for a tag the table does not list. */
  function Desc(tag: string): (r: Option<seq<string>>)
    ensures r.Some? ==> |r.value| > 0 && r.value[0] in {"name", "count"}
  {
    if tag == "genxml" then Some(["name", "gen"])
    else if tag == "import" then Some(["name"])
    else if tag == "exclude" then Some(["name"])
    else if tag == "enum" then Some(["name", "value", "prefix"])
    else if tag == "struct" then Some(["name", "length"])
    else if tag == "field" then Some(["name", "start", "end", "type", "default", "prefix", "nonzero"])
    else if tag == "instruction" then Some(["name", "bias", "length", "engine"])
    else if tag == "value" then Some(["name", "value", "dont_use"])
    else if tag == "group" then Some(["count", "start", "size"])
    else if tag == "register" then Some(["name", "length", "num"])
    else None
  }

  /** No descriptor lists an attribute twice, so its position in the
      list identifies it. */
  lemma DescDistinct(tag: string)
    requires Desc(tag).Some?
    ensures forall i, j :: 0 <= i < j < |Desc(tag).value| ==> Desc(tag).value[i] != Desc(tag).value[j]
  {
  }

  const BaseTypes: set<string> := {"address", "offset", "int", "uint", "bool", "float", "mbz", "mbo"}

  predicate IsAsciiDigit(c: char) {
    '0' <= c <= '9'
  }

  /** The length of the run of digits `s` starts with. */
  function DigitRun(s: string): (r: nat)
    ensures r <= |s|
    ensures forall i :: 0 <= i < r ==> IsAsciiDigit(s[i])
    ensures r < |s| ==> !IsAsciiDigit(s[r])
  {
    if |s| > 0 && IsAsciiDigit(s[0]) then 1 + DigitRun(s[1..]) else 0
  }

  /** `FIXED_PATTERN.match(name)`: `re.match` anchors the pattern
      `(s|u)(\d+)\.(\d+)` at the start of the name only, and a digit run
      is greedy and cannot swallow the dot. */
  predicate FixedMatch(name: string) {
    |name| > 0 && (name[0] == 's' || name[0] == 'u') &&
    var p := DigitRun(name[1..]);
    p >= 1 && 1 + p < |name| && name[1 + p] == '.' && DigitRun(name[2 + p..]) >= 1
  }

  /** `is_base_type`. */
  predicate IsBaseType(name: string) {
    name in BaseTypes || FixedMatch(name)
  }

  predicate AllAsciiDigits(s: string) {
    forall i :: 0 <= i < |s| ==> IsAsciiDigit(s[i])
  }

  /** The pattern matches a prefix of `name` with `p` digits before the
      dot and `q` after it. */
  predicate FixedAt(name: string, p: nat, q: nat) {
    1 <= p && 1 <= q && 2 + p + q <= |name| &&
    (name[0] == 's' || name[0] == 'u') && AllAsciiDigits(name[1..1 + p]) &&
    name[1 + p] == '.' && AllAsciiDigits(name[2 + p..2 + p + q])
  }

  /** The pattern read as the set of strings it accepts as a prefix. */
  ghost predicate FixedPrefix(name: string) {
    exists p: nat, q: nat :: FixedAt(name, p, q)
  }

  lemma FixedMatchIsPrefix(name: string)
    ensures FixedMatch(name) <==> FixedPrefix(name)
  {
    if FixedMatch(name) {
      MatchGivesPrefix(name);
    }
    if FixedPrefix(name) {
      var p: nat, q: nat :| FixedAt(name, p, q);
      PrefixGivesMatch(name, p, q);
    }
  }

  lemma MatchGivesPrefix(name: string)
    requires FixedMatch(name)
    ensures FixedAt(name, DigitRun(name[1..]), 1)
  {
    var p := DigitRun(name[1..]);
    LeadingDigits(name[1..], p);
    assert name[1..][..p] == name[1..1 + p];
    var rest := name[2 + p..];
    assert IsAsciiDigit(rest[0]);
    assert rest[..1] == name[2 + p..2 + p + 1];
  }

  lemma PrefixGivesMatch(name: string, p: nat, q: nat)
    requires FixedAt(name, p, q)
    ensures FixedMatch(name)
  {
    assert name[1..][..p] == name[1..1 + p];
    PrefixDigits(name[1..], p);
    assert name[1..][p] == '.';
    RunStops(name[1..], p);
    assert name[2 + p..][0] == name[2 + p..2 + p + q][0];
  }

  lemma LeadingDigits(s: string, p: nat)
    requires p <= |s| && forall i :: 0 <= i < p ==> IsAsciiDigit(s[i])
    ensures AllAsciiDigits(s[..p])
  {
  }

  lemma PrefixDigits(s: string, p: nat)
    requires p <= |s| && AllAsciiDigits(s[..p])
    ensures forall i :: 0 <= i < p ==> IsAsciiDigit(s[i])
  {
    forall i | 0 <= i < p ensures IsAsciiDigit(s[i]) {
      assert s[..p][i] == s[i];
    }
  }

  /** A run of `p` digits followed by a non-digit is exactly `p` long. */
  lemma {:induction false} RunStops(s: string, p: nat)
    requires p < |s| && !IsAsciiDigit(s[p]) && forall i :: 0 <= i < p ==> IsAsciiDigit(s[i])
    ensures DigitRun(s) == p
  {
    if p > 0 {
      RunStops(s[1..], p - 1);
    }
  }

  // -------------------------------------------------------------------
  // str.split
  // -------------------------------------------------------------------

  /** `s.split(sep)` for a one-character separator: the pieces between
      separators, empty ones included. */
  function Split(s: string, sep: char): (r: seq<string>)
    ensures |r| >= 1
  {
    if |s| == 0 then [""]
    else
      var rest := Split(s[1..], sep);
      if s[0] == sep then [""] + rest else [[s[0]] + rest[0]] + rest[1..]
  }

  /** `sep.join(pieces)`. */
  function Join(pieces: seq<string>, sep: char): string
    requires |pieces| >= 1
  {
    if |pieces| == 1 then pieces[0] else pieces[0] + [sep] + Join(pieces[1..], sep)
  }

  /** Joining the pieces gives back the string, and no piece contains
      the separator. */
  lemma {:induction false} SplitJoin(s: string, sep: char)
    ensures Join(Split(s, sep), sep) == s
    ensures forall p :: p in Split(s, sep) ==> sep !in p
  {
    if |s| > 0 {
      SplitJoin(s[1..], sep);
      var rest := Split(s[1..], sep);
      if s[0] != sep {
        var r := Split(s, sep);
        assert r[1..] == rest[1..];
        if |rest| > 1 {
          assert Join(r, sep) == [s[0]] + rest[0] + [sep] + Join(rest[1..], sep);
        }
        assert rest[0] in rest;
        forall p | p in r ensures sep !in p {
          if p != r[0] {
            assert p in rest;
          }
        }
      } else {
        assert Split(s, sep)[1..] == rest;
      }
    }
  }

  /** Splitting a join of separator-free pieces gives back the pieces. */
  lemma {:induction false} JoinSplit(pieces: seq<string>, sep: char)
    requires |pieces| >= 1 && forall p :: p in pieces ==> sep !in p
    ensures Split(Join(pieces, sep), sep) == pieces
  {
    if |pieces| == 1 {
      SplitPiece(pieces[0], [], sep);
      assert pieces[0] + [] == pieces[0];
      assert Split([], sep) == [""];
      assert pieces == [pieces[0]];
    } else {
      assert pieces[1..][0] in pieces;
      forall p | p in pieces[1..] ensures sep !in p {
        assert p in pieces;
      }
      JoinSplit(pieces[1..], sep);
      assert pieces[0] in pieces;
      var t := [sep] + Join(pieces[1..], sep);
      SplitPiece(pieces[0], t, sep);
      SplitSep(Join(pieces[1..], sep), sep);
      assert Join(pieces, sep) == pieces[0] + t;
      assert pieces[0] + "" == pieces[0];
      assert [pieces[0]] + pieces[1..] == pieces;
    }
  }

  /** Splitting a separator-free piece followed by `t` extends the first
      piece of `t`'s split. */
  lemma {:induction false} SplitPiece(p: string, t: string, sep: char)
    requires sep !in p
    ensures Split(p + t, sep) == [p + Split(t, sep)[0]] + Split(t, sep)[1..]
  {
    var r := Split(t, sep);
    if |p| > 0 {
      assert p[0] in p;
      assert sep !in p[1..];
      SplitPiece(p[1..], t, sep);
      var rest := Split(p[1..] + t, sep);
      assert p + t == [p[0]] + (p[1..] + t);
      SplitCons(p[0], p[1..] + t, sep);
      assert [p[0]] + (p[1..] + r[0]) == p + r[0];
    } else {
      assert p + t == t;
      assert p + r[0] == r[0];
    }
  }

  lemma SplitCons(c: char, u: string, sep: char)
    requires c != sep
    ensures Split([c] + u, sep) == [[c] + Split(u, sep)[0]] + Split(u, sep)[1..]
  {
    assert ([c] + u)[1..] == u;
  }

  lemma SplitSep(u: string, sep: char)
    ensures Split([sep] + u, sep) == [""] + Split(u, sep)
  {
    assert ([sep] + u)[1..] == u;
  }
}
