/** Small helpers shared by the vault model: an Option type, ASCII
    lower-casing as Python's str.lower does it on ASCII text, substring
    search (Python's `in` on strings) and the code-point lexicographic
    order Python uses to compare strings. */
module Common {

  datatype Option<T> = None | Some(value: T)

  /** A byte, as Python's `bytes` holds them. */
  type byte = x: int | 0 <= x < 256

  function LowerChar(c: char): (r: char)
    ensures 'A' <= c <= 'Z' ==> r as int == c as int + 32
    ensures !('A' <= c <= 'Z') ==> r == c
  {
    if 'A' <= c <= 'Z' then (c as int + 32) as char else c
  }

  /** str.lower() restricted to ASCII: every upper-case ASCII letter becomes
      its lower-case partner, every other character is kept. */
  function Lower(s: string): (r: string)
    ensures |r| == |s|
    ensures forall i :: 0 <= i < |s| ==> r[i] == LowerChar(s[i])
  {
    seq(|s|, i requires 0 <= i < |s| => LowerChar(s[i]))
  }

  predicate StartsWith<T(==)>(s: seq<T>, prefix: seq<T>) {
    |prefix| <= |s| && s[..|prefix|] == prefix
  }

  /** `q` occurs in `s` starting at index `i`. */
  predicate OccursAt<T(==)>(s: seq<T>, q: seq<T>, i: int) {
    0 <= i && i + |q| <= |s| && s[i..i + |q|] == q
  }

  /** Python's `q in s` for strings and bytes. */
  predicate Contains<T(==)>(s: seq<T>, q: seq<T>) {
    exists i | 0 <= i <= |s| - |q| :: OccursAt(s, q, i)
  }

  /** Index of the first occurrence of `q` in `s` at or after `from`. */
  function FindFrom<T(==)>(s: seq<T>, q: seq<T>, from: nat): (r: Option<nat>)
    ensures r.Some? ==> from <= r.value && OccursAt(s, q, r.value)
    ensures r.Some? ==> forall j :: from <= j < r.value ==> !OccursAt(s, q, j)
    ensures r.None? ==> forall j :: from <= j ==> !OccursAt(s, q, j)
    decreases |s| - from
  {
    if from + |q| > |s| then None
    else if OccursAt(s, q, from) then Some(from)
    else FindFrom(s, q, from + 1)
  }

  /** Index of the first occurrence of `q` in `s`, if any. */
  function Find<T(==)>(s: seq<T>, q: seq<T>): (r: Option<nat>)
    ensures r.Some? ==> OccursAt(s, q, r.value)
    ensures r.Some? ==> forall j :: 0 <= j < r.value ==> !OccursAt(s, q, j)
    ensures r.None? <==> !Contains(s, q)
  {
    FindFrom(s, q, 0)
  }

  /** Python's `a <= b` on strings: code-point lexicographic order. */
  predicate LexLe(a: string, b: string)
    decreases |a|
  {
    if a == [] then true
    else if b == [] then false
    else if a[0] != b[0] then a[0] < b[0]
    else LexLe(a[1..], b[1..])
  }

  lemma {:induction false} LexLeTotal(a: string, b: string)
    ensures LexLe(a, b) || LexLe(b, a)
    decreases |a|
  {
    if a != [] && b != [] && a[0] == b[0] {
      LexLeTotal(a[1..], b[1..]);
    }
  }

  lemma {:induction false} LexLeTransitive(a: string, b: string, c: string)
    requires LexLe(a, b) && LexLe(b, c)
    ensures LexLe(a, c)
    decreases |a|
  {
    if a != [] && b != [] && c != [] && a[0] == b[0] && b[0] == c[0] {
      LexLeTransitive(a[1..], b[1..], c[1..]);
    }
  }
}
