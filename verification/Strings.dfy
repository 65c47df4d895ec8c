/** Searching and joining text, as the template and naming code uses it. */
module Strings {

  /** `pattern` occurs in `text` starting at index `i`. */
  predicate OccursAt(text: string, pattern: string, i: int) {
    0 <= i && i + |pattern| <= |text| && text[i..i + |pattern|] == pattern
  }

  predicate Contains(text: string, pattern: string) {
    Find(text, pattern, 0) != -1
  }

  /** Python's `text.find(pattern, start)`: the first occurrence from `start` on, or -1. */
  function Find(text: string, pattern: string, start: nat): (r: int)
    ensures r == -1 ==> forall i | start <= i :: !OccursAt(text, pattern, i)
    ensures r != -1 ==> start <= r && OccursAt(text, pattern, r)
    ensures r != -1 ==> forall i | start <= i < r :: !OccursAt(text, pattern, i)
    decreases |text| - start
  {
    if start + |pattern| > |text| then -1
    else if OccursAt(text, pattern, start) then start
    else Find(text, pattern, start + 1)
  }

  /** Python's `separator.join(parts)`. */
  function Join(separator: string, parts: seq<string>): string {
    if parts == [] then ""
    else if |parts| == 1 then parts[0]
    else parts[0] + separator + Join(separator, parts[1..])
  }

  /** An occurrence is a matter of its characters. */
  lemma OccursAtChars(text: string, pattern: string, i: int)
    requires 0 <= i && i + |pattern| <= |text|
    ensures OccursAt(text, pattern, i) <==> forall k | 0 <= k < |pattern| :: text[i + k] == pattern[k]
  {
    var window := text[i..i + |pattern|];
    assert forall k | 0 <= k < |pattern| :: window[k] == text[i + k];
    if forall k | 0 <= k < |pattern| :: text[i + k] == pattern[k] {
      assert window == pattern;
    }
  }

  /** An occurrence that lies within the first `n` characters only depends on them. */
  lemma OccursInPrefix(a: string, b: string, pattern: string, i: int, n: nat)
    requires n <= |a| && n <= |b| && a[..n] == b[..n]
    requires i + |pattern| <= n
    ensures OccursAt(a, pattern, i) <==> OccursAt(b, pattern, i)
  {
    if 0 <= i {
      assert a[i..i + |pattern|] == a[..n][i..i + |pattern|];
      assert b[i..i + |pattern|] == b[..n][i..i + |pattern|];
    }
  }

  /** An occurrence that lies past `|a|` in `a + b` is one of `b`. */
  lemma OccursInSuffix(a: string, b: string, pattern: string, i: int)
    requires |a| <= i
    ensures OccursAt(a + b, pattern, i) <==> OccursAt(b, pattern, i - |a|)
  {
    if i + |pattern| <= |a + b| {
      assert (a + b)[i..i + |pattern|] == b[i - |a|..i - |a| + |pattern|];
    }
  }

  /** Joining two lists of parts. */
  lemma {:induction false} JoinConcat(separator: string, a: seq<string>, b: seq<string>)
    requires a != [] && b != []
    ensures Join(separator, a + b) == Join(separator, a) + separator + Join(separator, b)
    ensures forall x :: Join(separator, [x]) == x
  {
    assert (a + b)[1..] == a[1..] + b;
    if |a| > 1 {
      JoinConcat(separator, a[1..], b);
      var head, middle, tail := a[0] + separator, Join(separator, a[1..]), Join(separator, b);
      assert head + (middle + separator + tail) == head + middle + separator + tail;
    } else {
      assert a[1..] + b == b;
    }
  }

  /** The line stands somewhere in the text. */
  ghost predicate Shows(text: string, line: string) {
    exists before, after :: text == before + line + after
  }
}
