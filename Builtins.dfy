/** The Python built-ins the services lean on, stated over Dafny values:
    JSON-like values and dicts, truthiness, `dict.update`, `str(int)`,
    `str.split`/`str.join` on one separator and `list.remove`. */
module Builtins {

  /** A value as held in a Python dict decoded from JSON or built by the services. */
  datatype Value =
    | Null
    | Bool(b: bool)
    | Int(i: int)
    | Str(s: string)
    | List(items: seq<Value>)
    | Object(fields: map<string, Value>)

  /** A Python `dict` with string keys (key order is not modelled). */
  type Dict = map<string, Value>

  /** Python truthiness: what `if x:` and `if not x:` test. */
  predicate Truthy(v: Value) {
    match v
    case Null => false
    case Bool(b) => b
    case Int(i) => i != 0
    case Str(s) => s != ""
    case List(items) => items != []
    case Object(fields) => fields != map[]
  }

  /** `d.get(key)`: the value under `key`, or None when the key is absent. */
  function Get(d: Dict, key: string): Value {
    if key in d then d[key] else Null
  }

  /** `d.update(other)` on a copy of `d`: every key of `other` is set to
      `other`'s value, every other key of `d` keeps its value. */
  function Update(d: Dict, other: Dict): (r: Dict)
    ensures r.Keys == d.Keys + other.Keys
    ensures forall k :: k in other ==> r[k] == other[k]
    ensures forall k :: k in d && k !in other ==> r[k] == d[k]
  {
    d + other
  }

  function DigitChar(d: nat): (c: char)
    requires d < 10
    ensures '0' <= c <= '9' && c as int - '0' as int == d
  {
    ('0' as int + d) as char
  }

  /** `str(n)` for a non-negative integer: its decimal digits, most significant first. */
  function NatToString(n: nat): (r: string)
    ensures |r| >= 1
    ensures forall k :: 0 <= k < |r| ==> '0' <= r[k] <= '9'
    decreases n
  {
    if n < 10 then [DigitChar(n)] else NatToString(n / 10) + [DigitChar(n % 10)]
  }

  /** `int(s)` for a string of decimal digits, most significant first. */
  function DigitsValue(s: string): (r: nat)
    requires forall k :: 0 <= k < |s| ==> '0' <= s[k] <= '9'
    ensures |s| > 0 ==> r % 10 == s[|s| - 1] as int - '0' as int
    decreases |s|
  {
    if |s| == 0 then 0
    else 10 * DigitsValue(s[..|s| - 1]) + (s[|s| - 1] as int - '0' as int)
  }

  /** `int(str(n)) == n`: the digits of `str(n)` read back to `n`. */
  lemma {:induction false} NatToStringValue(n: nat)
    ensures DigitsValue(NatToString(n)) == n
    decreases n
  {
    if n >= 10 {
      NatToStringValue(n / 10);
      var s := NatToString(n);
      assert s[..|s| - 1] == NatToString(n / 10);
    }
  }

  /** `str(i)` for any integer: a leading '-' for negative numbers. */
  function IntToString(i: int): string {
    if i < 0 then "-" + NatToString(-i) else NatToString(i)
  }

  /** `s.split(sep)`: the pieces between separators; never empty, and an
      empty string splits into one empty piece. */
  function Split(s: string, sep: char): (r: seq<string>)
    ensures |r| >= 1
    decreases |s|
  {
    if |s| == 0 then [""]
    else
      var rest := Split(s[1..], sep);
      if s[0] == sep then [""] + rest
      else [[s[0]] + rest[0]] + rest[1..]
  }

  /** No piece of a split holds the separator. */
  lemma {:induction false} SplitPiecesLackSeparator(s: string, sep: char)
    ensures forall k :: 0 <= k < |Split(s, sep)| ==> sep !in Split(s, sep)[k]
    decreases |s|
  {
    if |s| > 0 {
      SplitPiecesLackSeparator(s[1..], sep);
      var rest := Split(s[1..], sep);
      if s[0] != sep {
        assert sep !in [s[0]] + rest[0];
      }
    }
  }

  /** `sep.join(parts)`. */
  function Join(parts: seq<string>, sep: char): string
    decreases |parts|
  {
    if |parts| == 0 then ""
    else if |parts| == 1 then parts[0]
    else parts[0] + [sep] + Join(parts[1..], sep)
  }

  /** Joining the pieces of a split gives back the original string. */
  lemma {:induction false} JoinSplit(s: string, sep: char)
    ensures Join(Split(s, sep), sep) == s
    decreases |s|
  {
    if |s| > 0 {
      var rest := Split(s[1..], sep);
      JoinSplit(s[1..], sep);
      if s[0] == sep {
        assert Join([""] + rest, sep) == "" + [sep] + Join(rest, sep);
      } else if |rest| == 1 {
        assert Join([[s[0]] + rest[0]] + rest[1..], sep) == [s[0]] + rest[0];
      } else {
        var parts := [[s[0]] + rest[0]] + rest[1..];
        assert parts[1..] == rest[1..];
        assert Join(parts, sep) == [s[0]] + rest[0] + [sep] + Join(rest[1..], sep);
      }
      assert s == [s[0]] + s[1..];
    }
  }

  /** A string without the separator splits into itself alone. */
  lemma {:induction false} SplitWithoutSeparator(s: string, sep: char)
    requires sep !in s
    ensures Split(s, sep) == [s]
    decreases |s|
  {
    if |s| > 0 {
      assert sep !in s[1..];
      SplitWithoutSeparator(s[1..], sep);
      assert s == [s[0]] + s[1..];
    }
  }

  /** Splitting `a + sep + b` splits `a` and `b` independently. */
  lemma {:induction false} SplitAtSeparator(a: string, b: string, sep: char)
    ensures Split(a + [sep] + b, sep) == Split(a, sep) + Split(b, sep)
    decreases |a|
  {
    if |a| == 0 {
      assert a + [sep] + b == [sep] + b;
      SplitCons(sep, b, sep);
    } else {
      assert a == [a[0]] + a[1..];
      assert a + [sep] + b == [a[0]] + (a[1..] + [sep] + b);
      SplitAtSeparator(a[1..], b, sep);
      SplitAtSeparatorStep(a[0], a[1..], b, sep);
    }
  }

  /** The inductive step of SplitAtSeparator: one more leading character. */
  lemma SplitAtSeparatorStep(c: char, rest: string, b: string, sep: char)
    requires Split(rest + [sep] + b, sep) == Split(rest, sep) + Split(b, sep)
    ensures Split([c] + (rest + [sep] + b), sep) == Split([c] + rest, sep) + Split(b, sep)
  {
    SplitCons(c, rest + [sep] + b, sep);
    SplitCons(c, rest, sep);
    ConsPieces(c, sep, Split(rest, sep), Split(b, sep));
  }


  /** The last piece of `s.split(sep)` is a suffix of `s`: all of it when
      there is no separator, otherwise what follows the last separator. */
  lemma {:induction false} SplitLastPiece(s: string, sep: char)
    ensures var r := Split(s, sep);
      && |r[|r| - 1]| <= |s| && s[|s| - |r[|r| - 1]|..] == r[|r| - 1]
      && (|r| == 1 ==> r[0] == s)
      && (|r| > 1 ==> |r[|r| - 1]| < |s| && s[|s| - |r[|r| - 1]| - 1] == sep)
    decreases |s|
  {
    if |s| > 0 {
      SplitLastPiece(s[1..], sep);
    }
  }

  /** Prefixing a character acts on the first piece only (or adds an empty
      piece), so it commutes with appending further pieces. */
  lemma ConsPieces(c: char, sep: char, front: seq<string>, back: seq<string>)
    requires |front| >= 1
    ensures (if c == sep then [""] + (front + back) else [[c] + (front + back)[0]] + (front + back)[1..])
         == (if c == sep then [""] + front else [[c] + front[0]] + front[1..]) + back
  {
    assert (front + back)[0] == front[0];
    assert (front + back)[1..] == front[1..] + back;
  }


  /** One step of `split`: a leading separator opens an empty piece, any
      other leading character joins the first piece of the rest. */
  lemma SplitCons(c: char, s: string, sep: char)
    ensures Split([c] + s, sep)
         == if c == sep then [""] + Split(s, sep) else [[c] + Split(s, sep)[0]] + Split(s, sep)[1..]
  {
    assert ([c] + s)[1..] == s;
  }

  /** `xs.remove(x)`: drops the first occurrence of `x` (the caller has
      checked that `x` occurs; otherwise Python raises ValueError). */
  function RemoveFirst<T(==)>(xs: seq<T>, x: T): (r: seq<T>)
    requires x in xs
    ensures |r| == |xs| - 1
    ensures multiset(r) == multiset(xs) - multiset{x}
  {
    if xs[0] == x then
      assert xs == [xs[0]] + xs[1..];
      xs[1..]
    else
      assert xs == [xs[0]] + xs[1..];
      [xs[0]] + RemoveFirst(xs[1..], x)
  }

  /** Removing the only occurrence of `x` leaves a list without `x`; any other
      element keeps every one of its occurrences. */
  lemma RemoveFirstMembers<T>(xs: seq<T>, x: T, y: T)
    requires x in xs
    ensures y != x ==> (y in RemoveFirst(xs, x) <==> y in xs)
    ensures x in RemoveFirst(xs, x) <==> multiset(xs)[x] > 1
  {
    var r := RemoveFirst(xs, x);
    assert y in r <==> multiset(r)[y] > 0;
    assert y in xs <==> multiset(xs)[y] > 0;
    assert x in r <==> multiset(r)[x] > 0;
  }
}
