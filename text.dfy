/** String helpers used by the unit writer: indentation, line assembly, joining, and
    the identifier normalisation applied to unit and type names. */
module Text {

  /** `"\t".repeat(n)` */
  function Tabs(n: nat): (r: string)
    ensures |r| == n
  {
    if n == 0 then "" else Tabs(n - 1) + "\t"
  }

  lemma {:induction false} TabsAreTabs(n: nat)
    ensures forall i :: 0 <= i < n ==> Tabs(n)[i] == '\t'
  {
    if n > 0 {
      TabsAreTabs(n - 1);
    }
  }

  /** What `writeLine(s)` appends at indentation `indent`. */
  function Line(indent: nat, s: string): string
  {
    Tabs(indent) + s + "\n"
  }

  /** `parts.join("")` */
  function Concat(parts: seq<string>): string
  {
    if parts == [] then "" else Concat(parts[..|parts| - 1]) + parts[|parts| - 1]
  }

  /** Concatenation regroups freely. */
  lemma Assoc<T>(a: seq<T>, b: seq<T>, c: seq<T>)
    ensures (a + b) + c == a + (b + c)
  {
  }

  lemma ConcatPair(a: string, b: string)
    ensures Concat([a, b]) == a + b
  {
    assert [a, b][..1] == [a];
    assert [a][..0] == [];
    assert Concat([a]) == Concat([]) + a;
  }

  lemma ConcatOne(a: string)
    ensures Concat([a]) == a
  {
    assert [a][..0] == [];
  }

  /** The texts `f` gives for the elements of `xs`, written one after the other. */
  function Flatten<T>(xs: seq<T>, f: T -> string): string
  {
    if xs == [] then "" else Flatten(xs[..|xs| - 1], f) + f(xs[|xs| - 1])
  }

  lemma {:induction false} FlattenAppend<T>(a: seq<T>, b: seq<T>, f: T -> string)
    ensures Flatten(a + b, f) == Flatten(a, f) + Flatten(b, f)
    decreases |b|
  {
    if b == [] {
      assert a + b == a;
    } else {
      assert (a + b)[..|a + b| - 1] == a + b[..|b| - 1];
      assert (a + b)[|a + b| - 1] == b[|b| - 1];
      FlattenAppend(a, b[..|b| - 1], f);
    }
  }

  /** Writing a prefix of `xs` and then its next element writes the longer prefix. */
  lemma FlattenStep<T>(xs: seq<T>, i: nat, f: T -> string)
    requires i < |xs|
    ensures Flatten(xs[..i + 1], f) == Flatten(xs[..i], f) + f(xs[i])
  {
    assert xs[..i + 1][..i] == xs[..i];
  }

  /** The same step, behind text already written. */
  lemma FlattenStepAfter<T>(base: string, xs: seq<T>, i: nat, f: T -> string)
    requires i < |xs|
    ensures (base + Flatten(xs[..i], f)) + f(xs[i]) == base + Flatten(xs[..i + 1], f)
  {
    FlattenStep(xs, i, f);
    Assoc(base, Flatten(xs[..i], f), f(xs[i]));
  }

  /** `parts.join(sep)` */
  function Join(parts: seq<string>, sep: string): string
  {
    if |parts| == 0 then ""
    else if |parts| == 1 then parts[0]
    else Join(parts[..|parts| - 1], sep) + sep + parts[|parts| - 1]
  }

  predicate StartsWith(s: string, prefix: string)
  {
    |prefix| <= |s| && s[..|prefix|] == prefix
  }

  predicate EndsWith(s: string, suffix: string)
  {
    |suffix| <= |s| && s[|s| - |suffix|..] == suffix
  }

  /** The regular-expression class `\w`. */
  predicate IsWordChar(c: char)
  {
    ('a' <= c <= 'z') || ('A' <= c <= 'Z') || ('0' <= c <= '9') || c == '_'
  }

  /** Upper-casing of one character, restricted to ASCII letters. */
  function UpperAscii(c: char): (r: char)
    ensures IsWordChar(r) <==> IsWordChar(c)
    ensures !('a' <= r <= 'z')
  {
    if 'a' <= c <= 'z' then (c as int - 32) as char else c
  }

  /** `s.replace(/<from>/g, <to>)` for a one-character pattern. */
  function ReplaceChar(s: string, from: char, to: char): (r: string)
    ensures |r| == |s|
    ensures forall i :: 0 <= i < |s| ==> r[i] == (if s[i] == from then to else s[i])
  {
    if s == [] then [] else [if s[0] == from then to else s[0]] + ReplaceChar(s[1..], from, to)
  }

  /** Position `i` of `s` begins a maximal run of word characters. */
  predicate StartsRun(s: string, i: int)
    requires 0 <= i < |s|
  {
    IsWordChar(s[i]) && (i == 0 || !IsWordChar(s[i - 1]))
  }

  /** The name normalisation `name.replace(/(\w+)\.?/g, m => m[0].toLocaleUpperCase() + m.substring(1))`:
      each match is a maximal run of word characters, possibly followed by a dot, and only
      its first character changes. `inWord` says whether the character before `s` was a
      word character. */
  function NormalizeAfter(s: string, inWord: bool): string
  {
    if s == [] then []
    else [if IsWordChar(s[0]) && !inWord then UpperAscii(s[0]) else s[0]]
         + NormalizeAfter(s[1..], IsWordChar(s[0]))
  }

  function Normalize(s: string): string
  {
    NormalizeAfter(s, false)
  }

  /** The character that normalisation puts at position `i` of `s`, given whether the
      character before `s` was a word character. */
  function NormalizedCharAt(s: string, i: int, inWord: bool): char
    requires 0 <= i < |s|
  {
    var prevWord := if i == 0 then inWord else IsWordChar(s[i - 1]);
    if IsWordChar(s[i]) && !prevWord then UpperAscii(s[i]) else s[i]
  }

  lemma {:induction false} NormalizeAfterAt(s: string, inWord: bool)
    ensures |NormalizeAfter(s, inWord)| == |s|
    ensures forall i :: 0 <= i < |s| ==> NormalizeAfter(s, inWord)[i] == NormalizedCharAt(s, i, inWord)
  {
    if s != [] {
      var tail := s[1..];
      NormalizeAfterAt(tail, IsWordChar(s[0]));
      var r := NormalizeAfter(s, inWord);
      assert r == [if IsWordChar(s[0]) && !inWord then UpperAscii(s[0]) else s[0]]
                  + NormalizeAfter(tail, IsWordChar(s[0]));
      forall i | 0 <= i < |s|
        ensures r[i] == NormalizedCharAt(s, i, inWord)
      {
        if i > 0 {
          assert r[i] == NormalizeAfter(tail, IsWordChar(s[0]))[i - 1];
          assert r[i] == NormalizedCharAt(tail, i - 1, IsWordChar(s[0]));
          assert tail[i - 1] == s[i];
          if i > 1 { assert tail[i - 2] == s[i - 1]; }
        }
      }
    }
  }

  /** Normalisation keeps the length and changes exactly the first character of each
      maximal run of word characters, to its upper-case form. */
  lemma NormalizeAt(s: string)
    ensures |Normalize(s)| == |s|
    ensures forall i :: 0 <= i < |s| ==>
      Normalize(s)[i] == (if StartsRun(s, i) then UpperAscii(s[i]) else s[i])
  {
    NormalizeAfterAt(s, false);
    forall i | 0 <= i < |s|
      ensures Normalize(s)[i] == (if StartsRun(s, i) then UpperAscii(s[i]) else s[i])
    {
      assert Normalize(s)[i] == NormalizedCharAt(s, i, false);
    }
  }

  /** Normalising twice gives the same name as normalising once. */
  lemma NormalizeIdempotent(s: string)
    ensures Normalize(Normalize(s)) == Normalize(s)
  {
    var n := Normalize(s);
    NormalizeAt(s);
    NormalizeAt(n);
    forall i | 0 <= i < |s|
      ensures Normalize(n)[i] == n[i]
    {
      assert IsWordChar(n[i]) == IsWordChar(s[i]);
      if i > 0 { assert IsWordChar(n[i - 1]) == IsWordChar(s[i - 1]); }
    }
  }

  /** The system unit path used by the examples of the translator normalises as expected. */
  lemma NormalizeSystemClasses()
    ensures Normalize("system.classes") == "System.Classes"
  {
    NormalizeAt("system.classes");
  }
}
