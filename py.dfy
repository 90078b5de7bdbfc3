/** Python values and the few Python builtins the widgets apply to them:
    `str()`, `repr()`, `in` on strings, `lower()`, `join`, `split(",")`,
    `replace(", ", ",")` and the dictionary operations `get`, `[k] =` and
    `update`. The widget modules import this one. */
module Py {

  datatype Option<T> = None | Some(value: T)

  /** The Python exceptions that the modelled code raises or lets through. */
  datatype Error = IndexError | AttributeError | TypeError | KeyError | ValueError

  /** A value or the exception that was raised instead. */
  datatype Result<T> = Ok(value: T) | Err(error: Error)

  /** Completion of a procedure that returns nothing useful. */
  datatype Outcome = Pass | Fail(error: Error)

  /** A Python value as the widgets receive it. A dictionary is given by its
      (key, value) items in the order Python iterates them; keys are strings. */
  datatype Value =
    | PyNone
    | Str(s: string)
    | Int(n: int)
    | Bool(b: bool)
    | List(elems: seq<Value>)
    | Dict(entries: seq<(string, Value)>)

  // ---------------------------------------------------------------------------
  // Dictionaries

  /** `d.get(k)` on the items of `d`: the value of the first item with key `k`. */
  function Lookup(entries: seq<(string, Value)>, k: string): (r: Option<Value>)
    ensures r.Some? <==> exists i :: 0 <= i < |entries| && entries[i].0 == k
    ensures r.Some? ==> exists i :: 0 <= i < |entries| && entries[i] == (k, r.value)
    ensures r.None? ==> forall i :: 0 <= i < |entries| ==> entries[i].0 != k
  {
    if |entries| == 0 then None
    else if entries[0].0 == k then Some(entries[0].1)
    else Lookup(entries[1..], k)
  }

  /** `d[k] = v`: the item for `k` is replaced in place, or appended. */
  function Assign(entries: seq<(string, Value)>, k: string, v: Value): (r: seq<(string, Value)>)
    ensures Lookup(r, k) == Some(v)
    ensures forall k' :: k' != k ==> Lookup(r, k') == Lookup(entries, k')
  {
    if |entries| == 0 then [(k, v)]
    else if entries[0].0 == k then [(k, v)] + entries[1..]
    else [entries[0]] + Assign(entries[1..], k, v)
  }

  /** `d.update(other)`: every key of `other` now maps to its value in `other`;
      every other key keeps its value. */
  function Update(entries: seq<(string, Value)>, other: seq<(string, Value)>): (r: seq<(string, Value)>)
    ensures forall k :: Lookup(r, k) == if Lookup(other, k).Some? then Lookup(other, k) else Lookup(entries, k)
  {
    if |other| == 0 then entries
    else Assign(Update(entries, other[1..]), other[0].0, other[0].1)
  }

  // ---------------------------------------------------------------------------
  // Strings

  /** `needle` occurs in `hay` starting at index `i`. */
  ghost predicate OccursAt(hay: string, needle: string, i: nat)
  {
    i + |needle| <= |hay| && hay[i..i + |needle|] == needle
  }

  /** Python's `needle in hay` on two strings: a substring test. */
  function Contains(hay: string, needle: string): (b: bool)
    ensures b <==> exists i: nat :: OccursAt(hay, needle, i)
    decreases |hay|
  {
    if |needle| > |hay| then false
    else if hay[..|needle|] == needle then (assert OccursAt(hay, needle, 0); true)
    else
      var b := Contains(hay[1..], needle);
      ContainsShift(hay, needle);
      b
  }

  /** An occurrence not at the front of `hay` is an occurrence in `hay[1..]`. */
  lemma ContainsShift(hay: string, needle: string)
    requires |hay| > 0
    requires !(|needle| <= |hay| && hay[..|needle|] == needle)
    ensures (exists i: nat :: OccursAt(hay, needle, i)) <==> (exists i: nat :: OccursAt(hay[1..], needle, i))
  {
    forall i: nat | OccursAt(hay, needle, i)
      ensures OccursAt(hay[1..], needle, i - 1)
    {
      assert i != 0;
      assert hay[1..][i - 1..i - 1 + |needle|] == hay[i..i + |needle|];
    }
    forall i: nat | OccursAt(hay[1..], needle, i)
      ensures OccursAt(hay, needle, i + 1)
    {
      assert hay[1..][i..i + |needle|] == hay[i + 1..i + 1 + |needle|];
    }
  }

  /** The empty string is contained in every string. */
  lemma ContainsEmpty(hay: string)
    ensures Contains(hay, "")
  {
    assert OccursAt(hay, "", 0);
  }

  /** ASCII lower-casing of one character: an upper-case letter becomes the
      letter 32 code points above it. */
  function LowerChar(c: char): (d: char)
    ensures 'A' <= c <= 'Z' ==> 'a' <= d <= 'z' && d as int == c as int + 32
    ensures !('A' <= c <= 'Z') ==> d == c
  {
    if 'A' <= c <= 'Z' then (c as int + 32) as char else c
  }

  /** Python's `s.lower()`, restricted to ASCII letters. */
  function Lower(s: string): (r: string)
    ensures |r| == |s|
    ensures forall i :: 0 <= i < |s| ==> r[i] == LowerChar(s[i])
  {
    if |s| == 0 then "" else [LowerChar(s[0])] + Lower(s[1..])
  }

  /** Two characters that are equal, or the upper- and lower-case forms of one
      ASCII letter. */
  predicate CaseVariant(c: char, d: char)
  {
    c == d || ('A' <= c <= 'Z' && d as int == c as int + 32) || ('A' <= d <= 'Z' && c as int == d as int + 32)
  }

  /** Two strings that differ only in the case of their letters. */
  ghost predicate SameIgnoringCase(a: string, b: string)
  {
    |a| == |b| && forall i :: 0 <= i < |a| ==> CaseVariant(a[i], b[i])
  }

  /** Lower-casing identifies exactly the case variants of a character. */
  lemma LowerCharIdentifiesCaseVariants(c: char, d: char)
    ensures LowerChar(c) == LowerChar(d) <==> CaseVariant(c, d)
  {
  }

  /** Lower-casing identifies exactly the strings that differ only in case. */
  lemma LowerIdentifiesCaseVariants(a: string, b: string)
    ensures Lower(a) == Lower(b) <==> SameIgnoringCase(a, b)
  {
    if |a| == |b| {
      forall i | 0 <= i < |a|
        ensures Lower(a)[i] == Lower(b)[i] <==> CaseVariant(a[i], b[i])
      {
        LowerCharIdentifiesCaseVariants(a[i], b[i]);
      }
      if SameIgnoringCase(a, b) {
        assert forall i :: 0 <= i < |a| ==> Lower(a)[i] == Lower(b)[i];
      }
    }
  }

  /** Python's `sep.join(parts)` on strings. */
  function Join(sep: string, parts: seq<string>): (r: string)
    ensures |parts| == 0 ==> r == ""
    ensures |parts| == 1 ==> r == parts[0]
  {
    if |parts| == 0 then ""
    else if |parts| == 1 then parts[0]
    else parts[0] + sep + Join(sep, parts[1..])
  }

  /** The strings held by a list of values, or TypeError at the first element that
      is not a string: what `sep.join(values)` checks before joining. */
  function Texts(vs: seq<Value>): (r: Result<seq<string>>)
    ensures r.Ok? <==> forall i :: 0 <= i < |vs| ==> vs[i].Str?
    ensures r.Ok? ==> |r.value| == |vs| && forall i :: 0 <= i < |vs| ==> r.value[i] == vs[i].s
    ensures r.Err? ==> r.error == TypeError
  {
    if |vs| == 0 then Ok([])
    else if !vs[0].Str? then Err(TypeError)
    else
      match Texts(vs[1..])
      case Ok(rest) => Ok([vs[0].s] + rest)
      case Err(e) => Err(e)
  }

  /** Python's `sep.join(values)`: TypeError unless every value is a string. */
  function JoinValues(sep: string, vs: seq<Value>): (r: Result<string>)
    ensures r.Ok? <==> forall i :: 0 <= i < |vs| ==> vs[i].Str?
    ensures r.Ok? ==> r.value == Join(sep, Texts(vs).value)
    ensures r.Err? ==> r.error == TypeError
  {
    match Texts(vs)
    case Ok(parts) => Ok(Join(sep, parts))
    case Err(e) => Err(e)
  }

  /** Joining `a` and the tail `rest` (at least one part) with `sep`. */
  lemma JoinCons(sep: string, a: string, rest: seq<string>)
    requires |rest| > 0
    ensures Join(sep, [a] + rest) == a + sep + Join(sep, rest)
  {
    assert ([a] + rest)[1..] == rest;
  }

  /** The last part of a join comes after the join of the others. */
  lemma {:induction false} JoinSnoc(sep: string, parts: seq<string>)
    requires |parts| >= 2
    ensures Join(sep, parts) == Join(sep, parts[..|parts| - 1]) + sep + parts[|parts| - 1]
  {
    if |parts| > 2 {
      JoinSnoc(sep, parts[1..]);
      assert parts[1..][..|parts[1..]| - 1] == parts[..|parts| - 1][1..];
      JoinCons(sep, parts[0], parts[..|parts| - 1][1..]);
      assert [parts[0]] + parts[..|parts| - 1][1..] == parts[..|parts| - 1];
    }
  }

  /** Python's `s.split(",")`: the pieces between the commas. */
  function SplitComma(s: string): (r: seq<string>)
    ensures |r| >= 1
    ensures forall i :: 0 <= i < |r| ==> ',' !in r[i]
    ensures Join(",", r) == s
  {
    if |s| == 0 then [""]
    else
      var rest := SplitComma(s[1..]);
      if s[0] == ',' then
        JoinCons(",", "", rest);
        [""] + rest
      else
        JoinExtendFirst(",", s[0], rest);
        assert [s[0]] + s[1..] == s;
        [[s[0]] + rest[0]] + rest[1..]
  }

  /** Putting a character in front of the first part puts it in front of the join. */
  lemma JoinExtendFirst(sep: string, c: char, parts: seq<string>)
    requires |parts| >= 1
    ensures Join(sep, [[c] + parts[0]] + parts[1..]) == [c] + Join(sep, parts)
  {
    if |parts| > 1 {
      JoinCons(sep, parts[0], parts[1..]);
      JoinCons(sep, [c] + parts[0], parts[1..]);
      assert [parts[0]] + parts[1..] == parts;
    }
  }

  /** Splitting a comma-free part followed by a comma splits off that part. */
  lemma {:induction false} SplitCommaAfterPart(p: string, x: string)
    requires ',' !in p
    ensures SplitComma(p + "," + x) == [p] + SplitComma(x)
  {
    if |p| == 0 {
      assert (p + "," + x)[1..] == x;
    } else {
      assert (p + "," + x)[1..] == p[1..] + "," + x;
      SplitCommaAfterPart(p[1..], x);
      assert [p[0]] + p[1..] == p;
    }
  }

  /** A comma-free string splits into itself. */
  lemma {:induction false} SplitCommaPlain(p: string)
    requires ',' !in p
    ensures SplitComma(p) == [p]
  {
    if |p| > 0 {
      SplitCommaPlain(p[1..]);
      assert [p[0]] + p[1..] == p;
    }
  }

  /** `split(",")` undoes `",".join` on comma-free parts. */
  lemma {:induction false} SplitCommaJoin(parts: seq<string>)
    requires |parts| >= 1
    requires forall i :: 0 <= i < |parts| ==> ',' !in parts[i]
    ensures SplitComma(Join(",", parts)) == parts
  {
    if |parts| == 1 {
      SplitCommaPlain(parts[0]);
    } else {
      JoinCons(",", parts[0], parts[1..]);
      SplitCommaAfterPart(parts[0], Join(",", parts[1..]));
      SplitCommaJoin(parts[1..]);
      assert [parts[0]] + parts[1..] == parts;
    }
  }

  /** Python's `s.replace(", ", ",")`: scanning from the left, every
      non-overlapping comma-space becomes a comma. */
  function ReplaceCommaSpace(s: string): (r: string)
    ensures |r| <= |s|
  {
    if |s| == 0 then ""
    else if |s| >= 2 && s[0] == ',' && s[1] == ' ' then "," + ReplaceCommaSpace(s[2..])
    else [s[0]] + ReplaceCommaSpace(s[1..])
  }

  /** Comma-free text is left unchanged. */
  lemma ReplaceCommaSpacePlain(s: string)
    requires ',' !in s
    ensures ReplaceCommaSpace(s) == s
  {
    ReplaceAfterPlain(s, "");
    assert s + "" == s;
  }

  /** A comma-free head passes through the replacement unchanged. */
  lemma {:induction false} ReplaceAfterPlain(a: string, x: string)
    requires ',' !in a
    ensures ReplaceCommaSpace(a + x) == a + ReplaceCommaSpace(x)
  {
    if |a| > 0 {
      assert (a + x)[0] == a[0] != ',';
      assert (a + x)[1..] == a[1..] + x;
      ReplaceAfterPlain(a[1..], x);
      ReplaceCommaSpaceKeeps(a + x);
      assert [a[0]] + (a[1..] + ReplaceCommaSpace(x)) == a + ReplaceCommaSpace(x);
    } else {
      assert a + x == x;
    }
  }

  /** A first character other than a comma is kept. */
  lemma ReplaceCommaSpaceKeeps(s: string)
    requires |s| > 0 && s[0] != ','
    ensures ReplaceCommaSpace(s) == [s[0]] + ReplaceCommaSpace(s[1..])
  {
  }

  /** A leading comma-space becomes a comma. */
  lemma ReplaceCommaSpaceHead(x: string)
    ensures ReplaceCommaSpace(", " + x) == "," + ReplaceCommaSpace(x)
  {
    assert (", " + x)[2..] == x;
  }

  /** A comma-free head and its comma-space: the head is kept and the comma-space becomes a comma. */
  lemma ReplaceAfterCommaSpace(head: string, tail: string)
    requires ',' !in head
    ensures ReplaceCommaSpace(head + ", " + tail) == head + "," + ReplaceCommaSpace(tail)
  {
    assert head + ", " + tail == head + (", " + tail);
    ReplaceAfterPlain(head, ", " + tail);
    ReplaceCommaSpaceHead(tail);
  }

  /** `replace(", ", ",")` turns a comma-space join of comma-free parts into a comma join. */
  lemma {:induction false} ReplaceJoin(parts: seq<string>)
    requires forall i :: 0 <= i < |parts| ==> ',' !in parts[i]
    ensures ReplaceCommaSpace(Join(", ", parts)) == Join(",", parts)
  {
    if |parts| == 1 {
      ReplaceCommaSpacePlain(parts[0]);
    } else if |parts| >= 2 {
      ReplaceJoin(parts[1..]);
      JoinCons(", ", parts[0], parts[1..]);
      JoinCons(",", parts[0], parts[1..]);
      assert [parts[0]] + parts[1..] == parts;
      ReplaceAfterCommaSpace(parts[0], Join(", ", parts[1..]));
    }
  }

  // ---------------------------------------------------------------------------
  // str() and repr()

  /** The character of a digit below 10. */
  function Digit(d: nat): (c: char)
    requires d < 10
    ensures '0' <= c <= '9' && c as int - '0' as int == d
  {
    ('0' as int + d) as char
  }

  /** The number a string of decimal digits denotes, most significant first. */
  function DigitsValue(s: string): nat
    requires forall i :: 0 <= i < |s| ==> '0' <= s[i] <= '9'
  {
    if |s| == 0 then 0 else DigitsValue(s[..|s| - 1]) * 10 + (s[|s| - 1] as int - '0' as int)
  }

  /** The decimal digits of a natural number. */
  function NatToDecimal(n: nat): (r: string)
    ensures |r| > 0
    ensures forall i :: 0 <= i < |r| ==> '0' <= r[i] <= '9'
    ensures r[0] == '0' ==> r == "0"
  {
    if n < 10 then [Digit(n)]
    else NatToDecimal(n / 10) + [Digit(n % 10)]
  }

  /** The digits of `str(n)` denote `n`. */
  lemma {:induction false} NatToDecimalValue(n: nat)
    ensures DigitsValue(NatToDecimal(n)) == n
  {
    var r := NatToDecimal(n);
    if n >= 10 {
      NatToDecimalValue(n / 10);
      assert r[..|r| - 1] == NatToDecimal(n / 10);
    }
  }

  /** Python's `str(n)` for an integer: the digits of `n`, after a `-` when it is
      negative. */
  function IntToDecimal(n: int): (r: string)
    ensures |r| > 0
    ensures n < 0 <==> r[0] == '-'
    ensures var digits := if n < 0 then r[1..] else r;
      |digits| > 0 && (forall i :: 0 <= i < |digits| ==> '0' <= digits[i] <= '9') &&
      (digits[0] == '0' ==> digits == "0") && DigitsValue(digits) == if n < 0 then -n else n
  {
    if n < 0 then
      NatToDecimalValue(-n);
      assert ("-" + NatToDecimal(-n))[1..] == NatToDecimal(-n);
      "-" + NatToDecimal(-n)
    else
      NatToDecimalValue(n);
      NatToDecimal(n)
  }

  /** Python's `str(v)`. String escapes in `repr` are not modelled. */
  function Show(v: Value): (r: string)
    ensures v.PyNone? ==> r == "None"
    ensures v.Str? ==> r == v.s
    ensures v.Int? ==> r == IntToDecimal(v.n)
    ensures v.Bool? ==> r == if v.b then "True" else "False"
    ensures v.List? ==> |r| >= 2 && r[0] == '[' && r[|r| - 1] == ']'
    ensures v.Dict? ==> |r| >= 2 && r[0] == '{' && r[|r| - 1] == '}'
    decreases v, 0
  {
    match v
    case PyNone => "None"
    case Str(s) => s
    case Int(n) => IntToDecimal(n)
    case Bool(b) => if b then "True" else "False"
    case List(es) => "[" + Join(", ", seq(|es|, i requires 0 <= i < |es| => Repr(es[i]))) + "]"
    case Dict(ds) =>
      "{" + Join(", ", seq(|ds|, i requires 0 <= i < |ds| => "'" + ds[i].0 + "': " + Repr(ds[i].1))) + "}"
  }

  /** Python's `repr(v)`: a string is quoted, every other value prints as `str`. */
  function Repr(v: Value): (r: string)
    ensures v.Str? ==> r == "'" + v.s + "'"
    ensures !v.Str? ==> r == Show(v)
    decreases v, 1
  {
    if v.Str? then "'" + v.s + "'" else Show(v)
  }

  // ---------------------------------------------------------------------------
  // Python slicing

  /** Python's `s[:-n]` for `n >= 0`: `s[:-0]` is `s[:0]`, the empty string, and a
      slice past the front is empty too. */
  function DropLast(s: string, n: nat): (r: string)
    ensures r <= s
    ensures |r| == if 0 < n <= |s| then |s| - n else 0
  {
    if n == 0 || n > |s| then "" else s[..|s| - n]
  }
}
