/** Small vocabulary shared by every module: optional values, JavaScript
    truthiness of optional strings, ASCII case folding, the JavaScript `\s`
    class and `String.prototype.split` on a one-character separator. */
module Common {

  datatype Option<+T> = None | Some(value: T)

  /** SHA-256 of a text, as lower-case hex: an input of every model that hashes. */
  type Sha256Hex = string -> string

  /** `undefined`/`null` and the empty string are falsy; every other string is truthy. */
  predicate Truthy(s: Option<string>) {
    s.Some? && s.value != ""
  }

  /** The JavaScript expression `s || d` for an optional string. */
  function OrElse(s: Option<string>, d: string): (r: string)
    ensures Truthy(s) ==> r == s.value
    ensures !Truthy(s) ==> r == d
  {
    if Truthy(s) then s.value else d
  }

  /** ASCII lower-casing, which is what a non-unicode JavaScript `/i` regular
      expression amounts to on the ASCII letters it is asked about. */
  function LowerChar(c: char): char {
    if 'A' <= c <= 'Z' then (c as int + 32) as char else c
  }

  /** Case-insensitive equality with a lower-case ASCII word. */
  predicate EqualsIgnoreCase(s: string, lower: string) {
    |s| == |lower| && forall k :: 0 <= k < |s| ==> LowerChar(s[k]) == lower[k]
  }

  /** The characters matched by `\s` in a JavaScript regular expression. */
  predicate IsJsSpace(c: char) {
    var n := c as int;
    n == 0x09 || n == 0x0A || n == 0x0B || n == 0x0C || n == 0x0D || n == 0x20 ||
    n == 0xA0 || n == 0x1680 || (0x2000 <= n <= 0x200A) || n == 0x2028 || n == 0x2029 ||
    n == 0x202F || n == 0x205F || n == 0x3000 || n == 0xFEFF
  }

  predicate NoJsSpace(s: string) {
    forall k :: 0 <= k < |s| ==> !IsJsSpace(s[k])
  }

  /** `s.split(sep)` for a one-character separator: the pieces between
      occurrences of `sep`, empty pieces included. */
  function Split(s: string, sep: char): (parts: seq<string>)
    ensures |parts| >= 1
    ensures forall p :: p in parts ==> sep !in p
    decreases |s|
  {
    if s == [] then [[]]
    else if s[0] == sep then [[]] + Split(s[1..], sep)
    else
      var rest := Split(s[1..], sep);
      [[s[0]] + rest[0]] + rest[1..]
  }

  /** `parts.join(sep)`, the inverse of `Split`. */
  function Join(parts: seq<string>, sep: char): string
    requires |parts| >= 1
    decreases |parts|
  {
    if |parts| == 1 then parts[0] else parts[0] + [sep] + Join(parts[1..], sep)
  }

  /** Joining the pieces of a split gives back the original string. */
  lemma {:induction false} SplitJoin(s: string, sep: char)
    ensures Join(Split(s, sep), sep) == s
    decreases |s|
  {
    if s == [] {
    } else if s[0] == sep {
      SplitJoin(s[1..], sep);
      assert Split(s, sep)[1..] == Split(s[1..], sep);
    } else {
      var rest := Split(s[1..], sep);
      SplitJoin(s[1..], sep);
      if |rest| == 1 {
        assert Split(s, sep) == [[s[0]] + rest[0]];
        assert rest[0] == s[1..];
      } else {
        assert Split(s, sep)[1..] == rest[1..];
        assert Join(rest, sep) == rest[0] + [sep] + Join(rest[1..], sep);
        assert [s[0]] + s[1..] == s;
      }
    }
  }

  /** A string without the separator is a single piece. */
  lemma {:induction false} SplitNoSep(a: string, sep: char)
    requires sep !in a
    ensures Split(a, sep) == [a]
    decreases |a|
  {
    if a != [] {
      SplitNoSep(a[1..], sep);
      assert [a[0]] + a[1..] == a;
    }
  }

  /** Splitting `a + sep + b`, where `a` has no separator, yields `a` followed by the pieces of `b`. */
  lemma {:induction false} SplitAfterFirst(a: string, b: string, sep: char)
    requires sep !in a
    ensures Split(a + [sep] + b, sep) == [a] + Split(b, sep)
    decreases |a|
  {
    if a == [] {
      assert a + [sep] + b == [sep] + b;
      assert ([sep] + b)[1..] == b;
    } else {
      assert (a + [sep] + b)[1..] == a[1..] + [sep] + b;
      SplitAfterFirst(a[1..], b, sep);
      assert [a[0]] + a[1..] == a;
    }
  }

  /** A string splits into exactly two pieces iff it is `a + sep + b` with
      neither `a` nor `b` containing the separator; the pieces are then `a` and `b`. */
  lemma SplitInTwo(s: string, sep: char)
    ensures |Split(s, sep)| == 2 ==>
              s == Split(s, sep)[0] + [sep] + Split(s, sep)[1]
    ensures forall a, b :: s == a + [sep] + b && sep !in a && sep !in b ==> Split(s, sep) == [a, b]
  {
    if |Split(s, sep)| == 2 {
      SplitJoin(s, sep);
      var p := Split(s, sep);
      assert Join(p, sep) == p[0] + [sep] + Join(p[1..], sep);
    }
    forall a, b | s == a + [sep] + b && sep !in a && sep !in b
      ensures Split(s, sep) == [a, b]
    {
      SplitAfterFirst(a, b, sep);
      SplitNoSep(b, sep);
    }
  }
}
