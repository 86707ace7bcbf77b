/** Shared vocabulary of the model: optional values, results, JSON-like
    documents and the handful of Python string operations the pipelines use. */
module Common {

  /** A value that may be absent (Python `None`, or a missing dict key). */
  datatype Option<+T> = None | Some(value: T) {
    function GetOr(default: T): (r: T)
      ensures Some? ==> r == value
      ensures None? ==> r == default
    {
      match this
      case Some(v) => v
      case None => default
    }
  }

  /** Success or a failure message (an exception or a `sys.exit(1)` in the source). */
  datatype Result<+T> = Success(value: T) | Failure(error: string)

  /** Parsed YAML/JSON documents. Dict key order is not modelled. */
  datatype Json =
    | JNull
    | JBool(b: bool)
    | JInt(i: int)
    | JStr(s: string)
    | JArr(items: seq<Json>)
    | JObj(fields: map<string, Json>)

  /** Python truthiness of an optional string: present and non-empty. */
  predicate Truthy(o: Option<string>) {
    o.Some? && o.value != ""
  }

  /** A reference field as the pipelines test it: truthy and not the
      string "null" that an unset shell variable used to produce. */
  predicate Provided(o: Option<string>) {
    Truthy(o) && o.value != "null"
  }

  /** `s.startswith(p)` */
  predicate StartsWith(s: string, p: string) {
    |p| <= |s| && s[..|p|] == p
  }

  /** `p in s` for strings: `p` occurs at some position of `s`. */
  predicate OccursAt(s: string, p: string, i: int) {
    0 <= i && i + |p| <= |s| && s[i..i + |p|] == p
  }

  function Contains(s: string, p: string): (r: bool)
    ensures r <==> exists i :: OccursAt(s, p, i)
    decreases |s|
  {
    if StartsWith(s, p) then
      assert OccursAt(s, p, 0);
      true
    else if |s| == 0 then
      assert forall i :: !OccursAt(s, p, i);
      false
    else
      var r := Contains(s[1..], p);
      assert forall i :: OccursAt(s[1..], p, i) <==> OccursAt(s, p, i + 1) by {
        forall i ensures OccursAt(s[1..], p, i) <==> OccursAt(s, p, i + 1) {
          if 0 <= i && i + |p| <= |s[1..]| {
            assert s[1..][i..i + |p|] == s[i + 1..i + 1 + |p|];
          }
        }
      }
      assert !OccursAt(s, p, 0);
      assert forall i :: OccursAt(s, p, i) ==> i == 0 || OccursAt(s[1..], p, i - 1);
      r
  }

  /** `s.replace(p, "")`: every non-overlapping occurrence of `p`, scanned
      left to right, is deleted. Replacing the empty string leaves `s` as is. */
  function RemoveAll(s: string, p: string): (r: string)
    ensures |r| <= |s|
    ensures p == [] ==> r == s
    ensures !Contains(s, p) ==> r == s
    decreases |s|
  {
    if p == [] then s
    else if StartsWith(s, p) then RemoveAll(s[|p|..], p)
    else if |s| == 0 then []
    else
      assert !Contains(s, p) ==> !Contains(s[1..], p) by {
        if Contains(s[1..], p) {
          var i :| OccursAt(s[1..], p, i);
          assert s[1..][i..i + |p|] == s[i + 1..i + 1 + |p|];
          assert OccursAt(s, p, i + 1);
        }
      }
      [s[0]] + RemoveAll(s[1..], p)
  }

  /** A single left-to-right pass can splice a new occurrence together:
      removing "ab" from "aabb" leaves "ab", as `str.replace` does. */
  lemma RemovalCanLeaveOccurrence()
    ensures RemoveAll("aabb", "ab") == "ab"
    ensures Contains(RemoveAll("aabb", "ab"), "ab")
  {
    assert "aabb"[..2][1] == 'a';
    assert !StartsWith("aabb", "ab");
    assert "aabb"[1..] == "abb" && "abb"[..2] == "ab";
    assert "abb"[2..] == "b" && !StartsWith("b", "ab");
    assert "b"[1..] == [] && RemoveAll([], "ab") == [];
    assert OccursAt("ab", "ab", 0);
  }

  /** `s.lstrip(c)` for a single character `c`. */
  function LStrip(s: string, c: char): (r: string)
    ensures |r| <= |s| && r == s[|s| - |r|..]
    ensures |r| == 0 || r[0] != c
    ensures forall i :: 0 <= i < |s| - |r| ==> s[i] == c
    decreases |s|
  {
    if |s| > 0 && s[0] == c then LStrip(s[1..], c) else s
  }

  predicate IsDigit(c: char) {
    '0' <= c <= '9'
  }

  predicate AllDigits(s: string) {
    forall i :: 0 <= i < |s| ==> IsDigit(s[i])
  }

  function DigitValue(c: char): nat {
    if IsDigit(c) then (c - '0') as nat else 0
  }

  /** `int(s)` for a non-empty string of ASCII digits (callers pass only digits). */
  function DecimalValue(s: string): (n: nat)
    decreases |s|
  {
    if |s| == 0 then 0
    else DecimalValue(s[..|s| - 1]) * 10 + DigitValue(s[|s| - 1])
  }

  /** `str(n)` for a natural number. */
  function NatToString(n: nat): (s: string)
    ensures |s| > 0 && AllDigits(s)
    ensures DecimalValue(s) == n
    decreases n
  {
    var d := [(n % 10) as char + '0'];
    if n < 10 then
      assert DecimalValue(d) == DecimalValue([]) * 10 + n;
      d
    else
      var prefix := NatToString(n / 10);
      var s := prefix + d;
      assert s[..|s| - 1] == prefix;
      s
  }

  /** `str(n)` for any integer. */
  function IntToString(n: int): (s: string)
    ensures |s| > 0
    ensures n >= 0 ==> AllDigits(s) && DecimalValue(s) == n
    ensures n < 0 ==> |s| > 1 && s[0] == '-' && AllDigits(s[1..]) && DecimalValue(s[1..]) == -n
  {
    if n >= 0 then NatToString(n)
    else
      var t := NatToString(-n);
      assert ("-" + t)[1..] == t;
      "-" + t
  }

  function LowerChar(c: char): char {
    if 'A' <= c <= 'Z' then (c - 'A' + 'a') as char else c
  }

  /** `s.lower()` restricted to ASCII letters. */
  function Lower(s: string): (r: string)
    ensures |r| == |s|
    ensures forall i :: 0 <= i < |s| ==> r[i] == LowerChar(s[i])
  {
    seq(|s|, i requires 0 <= i < |s| => LowerChar(s[i]))
  }

  /** A string contains every piece it was concatenated from. */
  lemma InfixContained(a: string, p: string, b: string)
    ensures Contains(a + p + b, p)
  {
    assert (a + p + b)[|a|..|a| + |p|] == p;
    assert OccursAt(a + p + b, p, |a|);
  }
}
