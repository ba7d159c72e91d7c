/** The stock Option datatype, used where the source yields `undefined`. */
module Wrappers {
  datatype Option<+T> = None | Some(value: T)
}

/** The JavaScript string operations the adapter relies on, restricted to
    what it uses: `toLowerCase` (ASCII only), `replace(/-/g, '_')`,
    `indexOf`, and the quoting and comma-joining the query builders do. */
module JsStrings {

  /** True for the ASCII capital letters 'A'..'Z'. */
  predicate IsUpper(c: char) {
    'A' <= c <= 'Z'
  }

  /** `toLowerCase` on one ASCII character. */
  function LowerChar(c: char): (d: char)
    ensures !IsUpper(d)
    ensures IsUpper(c) ==> d as int == c as int + 32
    ensures !IsUpper(c) ==> d == c
  {
    if IsUpper(c) then (c as int + 32) as char else c
  }

  /** `s.toLowerCase()`: every capital letter lowered, nothing else touched. */
  function ToLower(s: string): (r: string)
    ensures |r| == |s|
    ensures forall i :: 0 <= i < |s| ==> r[i] == LowerChar(s[i])
    ensures forall i :: 0 <= i < |r| ==> !IsUpper(r[i])
  {
    if s == [] then [] else [LowerChar(s[0])] + ToLower(s[1..])
  }

  /** Lowering twice is lowering once. */
  lemma ToLowerIdempotent(s: string)
    ensures ToLower(ToLower(s)) == ToLower(s)
  {
    var once := ToLower(s);
    assert forall i :: 0 <= i < |once| ==> ToLower(once)[i] == once[i];
  }

  /** A string that is already lower case is its own `toLowerCase`. */
  lemma ToLowerOfLower(s: string)
    requires forall i :: 0 <= i < |s| ==> !IsUpper(s[i])
    ensures ToLower(s) == s
  {
    assert forall i :: 0 <= i < |s| ==> ToLower(s)[i] == s[i];
  }

  /** `deviceId.replace(/-/g, '_')` (cassie.js formatId): every dash becomes an
      underscore, every other character stays where it was. */
  function FormatId(s: string): (r: string)
    ensures |r| == |s|
    ensures '-' !in r
    ensures forall i :: 0 <= i < |s| && s[i] == '-' ==> r[i] == '_'
    ensures forall i :: 0 <= i < |s| && s[i] != '-' ==> r[i] == s[i]
  {
    if s == [] then []
    else [if s[0] == '-' then '_' else s[0]] + FormatId(s[1..])
  }

  /** Formatting an identifier twice changes nothing more. */
  lemma FormatIdIdempotent(s: string)
    ensures FormatId(FormatId(s)) == FormatId(s)
  {
    var once := FormatId(s);
    assert forall i :: 0 <= i < |once| ==> FormatId(once)[i] == once[i];
  }

  /** Lower-casing and dash replacement commute, so the order in which
      `initDevice` applies them does not matter. */
  lemma FormatIdToLowerCommute(s: string)
    ensures FormatId(ToLower(s)) == ToLower(FormatId(s))
  {
    var a, b := FormatId(ToLower(s)), ToLower(FormatId(s));
    assert forall i :: 0 <= i < |s| ==> a[i] == b[i];
  }

  /** The sanitisation of a device id that contains dashes and digits. */
  lemma FormatIdExample(id: string)
    requires id == "smart-switch-01"
    ensures FormatId(ToLower(id)) == "smart_switch_01"
  {
    var lower, want := ToLower(id), "smart_switch_01";
    assert forall i :: 0 <= i < |id| ==> lower[i] == id[i];
    assert forall i :: 0 <= i < |id| ==> FormatId(lower)[i] == want[i];
  }

  /** `'"' + s + '"'` (cassie.js inQuotes). */
  function InQuotes(s: string): (r: string)
    ensures |r| == |s| + 2
    ensures r[0] == '"' && r[|r| - 1] == '"'
    ensures r[1..|r| - 1] == s
  {
    "\"" + s + "\""
  }

  /** Quoting loses nothing: two identifiers quote alike only if equal. */
  lemma InQuotesInjective(a: string, b: string)
    requires InQuotes(a) == InQuotes(b)
    ensures a == b
  {
    var qa := InQuotes(a);
    assert a == qa[1..|qa| - 1];
  }

  /** `s.indexOf(x)`: the first position of `x` in `s`, or -1 when absent. */
  function IndexOf<T(==)>(s: seq<T>, x: T): (i: int)
    ensures -1 <= i < |s|
    ensures i == -1 <==> x !in s
    ensures 0 <= i ==> s[i] == x && x !in s[..i]
  {
    if s == [] then -1
    else if s[0] == x then 0
    else
      var j := IndexOf(s[1..], x);
      if j == -1 then -1 else j + 1
  }

  /** The number of occurrences of `c` in `s`. */
  function Count(s: string, c: char): (n: nat)
    ensures n <= |s|
    ensures n == 0 <==> c !in s
  {
    if s == [] then 0 else (if s[0] == c then 1 else 0) + Count(s[1..], c)
  }

  /** Counting distributes over concatenation. */
  lemma {:induction false} CountAppend(a: string, b: string, c: char)
    ensures Count(a + b, c) == Count(a, c) + Count(b, c)
  {
    if a == [] {
      assert a + b == b;
    } else {
      assert (a + b)[1..] == a[1..] + b;
      CountAppend(a[1..], b, c);
    }
  }

  /** `items` separated by `sep`, with no separator before the first item
      or after the last: the comma-separated lists of a CQL statement. */
  function Join(items: seq<string>, sep: string): string
  {
    if |items| == 0 then ""
    else if |items| == 1 then items[0]
    else Join(items[..|items| - 1], sep) + sep + items[|items| - 1]
  }

  /** Joining one more item appends a separator and that item. */
  lemma JoinSnoc(items: seq<string>, k: nat, sep: string)
    requires 0 < k < |items|
    ensures Join(items[..k + 1], sep) == Join(items[..k], sep) + sep + items[k]
  {
    assert items[..k + 1][..k] == items[..k];
  }

  /** `s.endsWith(suffix)`. */
  predicate EndsWith(s: string, suffix: string) {
    |suffix| <= |s| && s[|s| - |suffix|..] == suffix
  }

  /** The joined list ends with its last item, never with a separator. */
  lemma JoinEndsWithLast(items: seq<string>, sep: string)
    requires |items| > 0
    ensures EndsWith(Join(items, sep), items[|items| - 1])
  {
  }

  /** With a one-character separator mark that no item contains, the joined
      list holds exactly one mark fewer than it has items: one entry per
      item and no trailing separator. */
  lemma {:induction false} JoinCount(items: seq<string>, sep: string, c: char)
    requires |items| > 0
    requires Count(sep, c) == 1
    requires forall i :: 0 <= i < |items| ==> c !in items[i]
    ensures Count(Join(items, sep), c) == |items| - 1
  {
    if |items| > 1 {
      var init := items[..|items| - 1];
      JoinCount(init, sep, c);
      CountAppend(Join(init, sep), sep, c);
      CountAppend(Join(init, sep) + sep, items[|items| - 1], c);
    }
  }
}
