/** Values shared by every module: optional values, the exceptions the
    modelled Python code raises, JSON-compatible scalars, and the few string
    operations (split, find, lower-case) that the code takes from Python's
    `str`. */
module Base {

  datatype Option<+T> = None | Some(value: T)

  /** A Python exception as the modelled code sees it: FastAPI's
      `HTTPException` with its status code and detail, or any other
      exception, known by what `str(e)` gives. */
  datatype Exc = HttpException(status: int, detail: string) | Error(message: string)

  /** What a Python call does: it returns a value or it raises. */
  datatype Outcome<+T> = Returns(value: T) | Raises(exc: Exc)

  /** A JSON-compatible scalar, as found in token claims, keyword arguments
      and request bodies; `Null` is Python's `None`. */
  datatype Value = Int(i: int) | Str(s: string) | Null

  /** Python truthiness of a scalar. */
  predicate Truthy(v: Value)
  {
    match v
    case Int(i) => i != 0
    case Str(s) => s != ""
    case Null => false
  }

  /** Keyword arguments and JSON objects with scalar values. */
  type Claims = map<string, Value>

  /** Index of the last occurrence of `c` in `s` (what `rsplit(c, 1)` splits at). */
  function LastIndexOf(s: string, c: char): (r: Option<nat>)
    ensures r.None? <==> c !in s
    ensures r.Some? ==> r.value < |s| && s[r.value] == c && c !in s[r.value + 1..]
  {
    if |s| == 0 then None
    else if s[|s| - 1] == c then Some(|s| - 1)
    else
      assert s == s[..|s| - 1] + [s[|s| - 1]];
      match LastIndexOf(s[..|s| - 1], c)
      case None => None
      case Some(i) => assert s[i + 1..] == s[..|s| - 1][i + 1..] + [s[|s| - 1]]; Some(i)
  }

  /** Python's `s.split(sep)` for a one-character separator: every occurrence
      splits, so adjacent separators give empty fields. */
  function Split(s: string, sep: char): (r: seq<string>)
    ensures |r| >= 1
    ensures |r| == 1 <==> sep !in s
    decreases |s|
  {
    match Find(s, sep)
    case None => [s]
    case Some(i) => [s[..i]] + Split(s[i + 1..], sep)
  }

  /** No field of a split contains the separator. */
  lemma {:induction false} SplitFieldsFree(s: string, sep: char)
    ensures forall k :: 0 <= k < |Split(s, sep)| ==> sep !in Split(s, sep)[k]
    decreases |s|
  {
    match Find(s, sep)
    case None =>
    case Some(i) =>
      var rest := Split(s[i + 1..], sep);
      SplitFieldsFree(s[i + 1..], sep);
      assert Split(s, sep) == [s[..i]] + rest;
      assert forall k :: 1 <= k < |rest| + 1 ==> ([s[..i]] + rest)[k] == rest[k - 1];
  }

  /** Python's `sep.join(parts)`. */
  function Join(parts: seq<string>, sep: char): string
  {
    if |parts| == 0 then ""
    else if |parts| == 1 then parts[0]
    else parts[0] + [sep] + Join(parts[1..], sep)
  }

  /** Joining a field in front of at least one more field puts the
      separator between them. */
  lemma JoinCons(head: string, rest: seq<string>, sep: char)
    requires |rest| >= 1
    ensures Join([head] + rest, sep) == head + [sep] + Join(rest, sep)
  {
    assert ([head] + rest)[1..] == rest;
  }

  /** Splitting loses nothing: joining the fields back with the separator
      gives the original text. */
  lemma {:induction false} SplitJoin(s: string, sep: char)
    ensures Join(Split(s, sep), sep) == s
    decreases |s|
  {
    match Find(s, sep)
    case None =>
    case Some(i) =>
      var rest := Split(s[i + 1..], sep);
      SplitJoin(s[i + 1..], sep);
      JoinCons(s[..i], rest, sep);
      Around(s, i);
  }

  /** A sequence is what lies before position `i`, the element there, and
      what follows. */
  lemma Around<T>(s: seq<T>, i: nat)
    requires i < |s|
    ensures s == s[..i] + [s[i]] + s[i + 1..]
  {
  }

  /** Lower-case of one character, ASCII letters only. */
  function LowerChar(c: char): char
  {
    if 'A' <= c <= 'Z' then (c as int + 32) as char else c
  }

  /** `str.lower()` restricted to ASCII letters. */
  function Lower(s: string): (r: string)
    ensures |r| == |s|
    ensures forall k :: 0 <= k < |s| ==> r[k] == LowerChar(s[k])
  {
    if |s| == 0 then "" else [LowerChar(s[0])] + Lower(s[1..])
  }

  predicate StartsWith(s: string, prefix: string)
  {
    |prefix| <= |s| && s[..|prefix|] == prefix
  }

  /** The elements of `s` that satisfy `p`, in order: a list comprehension
      with a condition. */
  function Filter<T>(s: seq<T>, p: T -> bool): (r: seq<T>)
    ensures |r| <= |s|
    ensures forall k :: 0 <= k < |r| ==> r[k] in s && p(r[k])
    ensures forall k :: 0 <= k < |s| && p(s[k]) ==> s[k] in r
  {
    if |s| == 0 then [] else (if p(s[0]) then [s[0]] else []) + Filter(s[1..], p)
  }

  /** Tortoise ORM's `get_or_none` over the rows in table order: no row gives
      None, one row gives it, several raise `MultipleObjectsReturned`. */
  function GetOrNone<T>(rows: seq<T>, p: T -> bool): (r: Outcome<Option<T>>)
    ensures r == Returns(None) <==> forall k :: 0 <= k < |rows| ==> !p(rows[k])
    ensures r.Returns? && r.value.Some? ==> r.value.value in rows && p(r.value.value)
    ensures r.Raises? ==> |Filter(rows, p)| > 1
  {
    var found := Filter(rows, p);
    if |found| == 0 then Returns(None)
    else if |found| == 1 then Returns(Some(found[0]))
    else Raises(Error("Multiple objects returned, expected exactly one"))
  }

  /** Filtering for a property exactly one row has yields that row alone. */
  lemma {:induction false} FilterSingle<T>(s: seq<T>, p: T -> bool, i: nat)
    requires i < |s| && p(s[i])
    requires forall j :: 0 <= j < |s| && p(s[j]) ==> j == i
    ensures Filter(s, p) == [s[i]]
  {
    if i == 0 {
      FilterNone(s[1..], p);
    } else {
      FilterSingle(s[1..], p, i - 1);
    }
  }

  lemma {:induction false} FilterNone<T>(s: seq<T>, p: T -> bool)
    requires forall j :: 0 <= j < |s| ==> !p(s[j])
    ensures Filter(s, p) == []
  {
    if |s| > 0 {
      FilterNone(s[1..], p);
    }
  }

  /** A comprehension that keeps every element keeps the sequence. */
  lemma {:induction false} FilterAll<T>(s: seq<T>, p: T -> bool)
    requires forall j :: 0 <= j < |s| ==> p(s[j])
    ensures Filter(s, p) == s
  {
    if |s| > 0 {
      FilterAll(s[1..], p);
    }
  }

  /** `{k: v for k, v in d.items() if v is not None}`. */
  function DropNone(d: map<string, Value>): (r: map<string, Value>)
    ensures forall k :: k in r <==> k in d && d[k] != Null
    ensures forall k :: k in r ==> r[k] == d[k]
  {
    map k | k in d && d[k] != Null :: d[k]
  }

  /** Index of the first element of `s` equal to `x` (`list.index`). */
  function Find<T(==)>(s: seq<T>, x: T): (r: Option<nat>)
    ensures r.None? <==> x !in s
    ensures r.Some? ==> r.value < |s| && s[r.value] == x && x !in s[..r.value]
  {
    if |s| == 0 then None
    else if s[0] == x then Some(0)
    else match Find(s[1..], x)
      case None => None
      case Some(i) => assert s[1..][..i] == s[1..i + 1]; Some(i + 1)
  }
}
