/**
 * The `System.IO.Path` operations the engine uses, with their .NET
 * semantics on Unix: '/' is the only directory separator and a path is
 * rooted when it starts with '/'.
 */
module Paths {

  /** `Path.DirectorySeparatorChar`. */
  const DirectorySeparator: char := '/'

  /** `Path.PathSeparator`: the separator of PATH-style lists of directories, not a directory separator. */
  const PathListSeparator: char := ':'

  /** Index of the last occurrence of `c` in `s`, or -1 when there is none. */
  function LastIndexOf(s: string, c: char): (r: int)
    ensures -1 <= r < |s|
    ensures r >= 0 ==> s[r] == c
    ensures forall i :: r < i < |s| ==> s[i] != c
  {
    if s == [] then -1
    else if s[|s| - 1] == c then |s| - 1
    else LastIndexOf(s[..|s| - 1], c)
  }

  /** `Path.GetFileName`: everything after the last directory separator. */
  function GetFileName(path: string): (r: string)
    ensures DirectorySeparator !in r
  {
    var k := LastIndexOf(path, DirectorySeparator);
    path[k + 1..]
  }

  /** The directory part of a path: everything before its last separator ("" when there is none). */
  function DirectoryPart(path: string): string
  {
    var k := LastIndexOf(path, DirectorySeparator);
    if k < 0 then "" else path[..k]
  }

  /** `Path.GetFileNameWithoutExtension`: the file name up to (not including) its last '.'. */
  function GetFileNameWithoutExtension(path: string): string
  {
    var name := GetFileName(path);
    var dot := LastIndexOf(name, '.');
    if dot < 0 then name else name[..dot]
  }

  /** `Path.IsPathRooted`. */
  predicate IsPathRooted(p: string)
  {
    |p| > 0 && p[0] == DirectorySeparator
  }

  /**
   * Two-argument `Path.Combine`: an empty part is skipped, a rooted second
   * part replaces the first, and one separator is inserted unless the first
   * part already ends with one.
   */
  function Combine2(a: string, b: string): string
  {
    if b == "" then a
    else if a == "" then b
    else if IsPathRooted(b) then b
    else if a[|a| - 1] == DirectorySeparator then a + b
    else a + [DirectorySeparator] + b
  }

  /** `Path.Combine(p0, p1, ...)`: the parts folded from the left with `Combine2`. */
  function Combine(parts: seq<string>): string
  {
    if parts == [] then "" else Combine2(Combine(parts[..|parts| - 1]), parts[|parts| - 1])
  }

  /** `Path.Combine` of two parts. */
  lemma CombinePair(a: string, b: string)
    ensures Combine([a, b]) == Combine2(a, b)
  {
    assert [a, b][..1] == [a];
    assert [a][..0] == [];
    assert Combine([a]) == Combine2("", a) == a;
  }

  /** `Path.Combine` of three parts. */
  lemma CombineTriple(a: string, b: string, c: string)
    ensures Combine([a, b, c]) == Combine2(Combine2(a, b), c)
  {
    assert [a, b, c][..2] == [a, b];
    assert Combine([a, b, c]) == Combine2(Combine([a, b]), c);
    CombinePair(a, b);
  }

  /** The last separator of `x + b` is the one that ends `x` when `b` has none. */
  lemma LastSeparatorBefore(x: string, b: string)
    requires |x| > 0 && x[|x| - 1] == DirectorySeparator
    requires DirectorySeparator !in b
    ensures LastIndexOf(x + b, DirectorySeparator) == |x| - 1
  {
    var s := x + b;
    var r := LastIndexOf(s, DirectorySeparator);
    assert s[|x| - 1] == DirectorySeparator;
  }

  /**
   * Appending a plain name (non-empty, no separator) to a non-empty
   * directory puts that name last: it is the file name of the result, and
   * the directory part of the result is the directory itself, minus any
   * trailing separator it had.
   */
  lemma CombineNameLast(a: string, b: string)
    requires a != "" && b != "" && DirectorySeparator !in b
    ensures GetFileName(Combine2(a, b)) == b
    ensures DirectoryPart(Combine2(a, b)) == if a[|a| - 1] == DirectorySeparator then a[..|a| - 1] else a
  {
    var x := if a[|a| - 1] == DirectorySeparator then a else a + [DirectorySeparator];
    assert Combine2(a, b) == x + b;
    LastSeparatorBefore(x, b);
    assert (x + b)[|x|..] == b;
    assert (x + b)[..|x| - 1] == x[..|x| - 1];
  }
}
