/** Strings shared by every component.  A C++ `std::string` is a `string` whose characters stand
    for bytes. */
module Text {

  datatype Option<+T> = None | Some(value: T)

  /** `prefix` starts `s` (C++ `s.rfind(prefix, 0) == 0`). */
  predicate StartsWith(s: string, prefix: string)
  {
    prefix <= s
  }

  /** `needle` occurs in `s` at position `i`. */
  predicate OccursAt(s: string, needle: string, i: nat)
  {
    i <= |s| && needle <= s[i..]
  }

  /** C++ `s.find(needle) != npos`. */
  predicate Contains(s: string, needle: string)
  {
    exists i {:trigger OccursAt(s, needle, i)} :: 0 <= i <= |s| && OccursAt(s, needle, i)
  }

  /** The position of the first `c`, or |s| when there is none. */
  function FirstIndex(s: string, c: char): (i: nat)
    ensures i <= |s|
    ensures i < |s| ==> s[i] == c
  {
    if s == [] || s[0] == c then 0 else 1 + FirstIndex(s[1..], c)
  }

  /** It is the first. */
  lemma {:induction false} NoneBefore(s: string, c: char)
    ensures c !in s[..FirstIndex(s, c)]
  {
    if s != [] && s[0] != c {
      NoneBefore(s[1..], c);
      var i := FirstIndex(s[1..], c);
      assert s[..i + 1] == [s[0]] + s[1..][..i];
    }
  }

  lemma {:induction false} FirstIndexAtMost(s: string, c: char, i: nat)
    requires i < |s| && s[i] == c
    ensures FirstIndex(s, c) <= i
  {
    if s[0] != c {
      FirstIndexAtMost(s[1..], c, i - 1);
    }
  }

  lemma {:induction false} FirstIndexAfter(a: string, b: string, c: char)
    requires c !in a
    ensures FirstIndex(a + b, c) == |a| + FirstIndex(b, c)
  {
    if a == [] {
      assert a + b == b;
    } else {
      assert (a + b)[1..] == a[1..] + b;
      FirstIndexAfter(a[1..], b, c);
    }
  }

  lemma {:induction false} FirstIndexStands(s: string, more: string, c: char)
    requires FirstIndex(s, c) < |s|
    ensures FirstIndex(s + more, c) == FirstIndex(s, c)
  {
    assert (s + more)[0] == s[0];
    if s[0] != c {
      assert (s + more)[1..] == s[1..] + more;
      FirstIndexStands(s[1..], more, c);
    }
  }

  lemma FirstIndexSkips(a: string, c: char, b: string)
    requires c !in a
    ensures FirstIndex(a + ([c] + b), c) == |a|
  {
    FirstIndexAfter(a, [c] + b, c);
  }

  /** What a callee sees of a string handed over as `s.c_str()`: everything before the first NUL. */
  function CStr(s: string): string
  {
    s[..FirstIndex(s, '\0')]
  }

  lemma CStrNulFree(s: string)
    ensures CStr(s) == s <==> '\0' !in s
    ensures '\0' !in CStr(s)
  {
    NoneBefore(s, '\0');
    if CStr(s) == s {
      assert FirstIndex(s, '\0') == |s|;
    }
  }

  lemma CStrTwice(s: string)
    ensures CStr(CStr(s)) == CStr(s)
  {
    CStrNulFree(s);
    CStrNulFree(CStr(s));
  }

  lemma CStrKeepsPrefix(s: string, prefix: string)
    requires '\0' !in prefix
    ensures StartsWith(CStr(s), prefix) <==> StartsWith(s, prefix)
  {
    assert forall i :: 0 <= i < |prefix| ==> prefix[i] in prefix;
    assert StartsWith(s, prefix) ==> forall i :: 0 <= i < |prefix| ==> s[i] == prefix[i];
  }

  /** C `isspace` in the default locale. */
  predicate IsSpace(c: char)
  {
    c == ' ' || c == '\t' || c == '\n' || c == '\r' || c as int == 11 || c as int == 12
  }

  /** Everything in `s` is white space. */
  predicate Blank(s: string)
  {
    forall i :: 0 <= i < |s| ==> IsSpace(s[i])
  }

  function TrimCr(line: string): string
  {
    if line != "" && line[|line| - 1] == '\r' then line[..|line| - 1] else line
  }

  /** The line at the start of `data`, without its line feed and a carriage return before that. */
  function FirstLine(data: string): string
  {
    TrimCr(data[..FirstIndex(data, '\n')])
  }

  /** What follows the line at the start of `data`. */
  function AfterLine(data: string): (rest: string)
    ensures data != "" ==> |rest| < |data|
  {
    var i := FirstIndex(data, '\n');
    if i < |data| then data[i + 1..] else ""
  }

  function TrimStart(s: string): string
  {
    if s == "" || !IsSpace(s[0]) then s else TrimStart(s[1..])
  }

  function TrimEnd(s: string): string
  {
    if s == "" || !IsSpace(s[|s| - 1]) then s else TrimEnd(s[..|s| - 1])
  }

  function Trim(s: string): string
  {
    TrimEnd(TrimStart(s))
  }

  lemma {:induction false} TrimStartBlank(s: string)
    ensures TrimStart(s) == "" <==> Blank(s)
    ensures TrimStart(s) != "" ==> !IsSpace(TrimStart(s)[0])
  {
    if s != "" {
      TrimStartBlank(s[1..]);
      assert forall i :: 0 < i < |s| ==> s[i] == s[1..][i - 1];
      assert forall i :: 0 <= i < |s| - 1 ==> s[1..][i] == s[i + 1];
    }
  }

  lemma {:induction false} TrimEndKeeps(s: string, i: nat)
    requires i < |s| && !IsSpace(s[i])
    ensures i < |TrimEnd(s)| && TrimEnd(s) <= s
  {
    if IsSpace(s[|s| - 1]) {
      TrimEndKeeps(s[..|s| - 1], i);
    }
  }

  /** Trimming leaves nothing exactly when there was only white space. */
  lemma TrimBlank(s: string)
    ensures Trim(s) == "" <==> Blank(s)
  {
    TrimStartBlank(s);
    if !Blank(s) {
      TrimEndKeeps(TrimStart(s), 0);
    }
  }

  lemma Regroup<T>(a: seq<T>, b: seq<T>, c: seq<T>)
    ensures (a + b) + c == a + (b + c)
  {
  }

  lemma Nothing<T>(s: seq<T>)
    ensures [] + s == s && s + [] == s
  {
  }

  function Max(a: int, b: int): int { if a < b then b else a }

  function Min(a: int, b: int): int { if b < a then b else a }

  predicate IsSuffix<T(==)>(a: seq<T>, b: seq<T>)
  {
    |a| <= |b| && a == b[|b| - |a|..]
  }

  lemma SuffixOfSuffix<T>(a: seq<T>, b: seq<T>, c: seq<T>)
    requires IsSuffix(a, b) && IsSuffix(b, c)
    ensures IsSuffix(a, c)
  {
  }

  lemma SuffixOfConcat<T>(a: seq<T>, b: seq<T>, c: seq<T>)
    requires IsSuffix(a, b)
    ensures IsSuffix(a + c, b + c)
  {
  }

  /** The concatenation of a list of strings. */
  function Concat(ss: seq<string>): string
  {
    if ss == [] then "" else ss[0] + Concat(ss[1..])
  }

  lemma {:induction false} ConcatAppend(a: seq<string>, b: seq<string>)
    ensures Concat(a + b) == Concat(a) + Concat(b)
  {
    if a == [] {
      assert a + b == b;
    } else {
      assert (a + b)[1..] == a[1..] + b;
      ConcatAppend(a[1..], b);
    }
  }

  lemma ConcatOne(s: string)
    ensures Concat([s]) == s
  {
    assert [s][1..] == [];
  }

  /** Each string followed by a line feed. */
  function Lines(rs: seq<string>): string
  {
    if rs == [] then "" else rs[0] + "\n" + Lines(rs[1..])
  }

  lemma {:induction false} LinesAppend(a: seq<string>, b: seq<string>)
    ensures Lines(a + b) == Lines(a) + Lines(b)
  {
    if a == [] {
      assert a + b == b;
    } else {
      assert (a + b)[1..] == a[1..] + b;
      LinesAppend(a[1..], b);
    }
  }

  lemma LinesCons(line: string, rest: seq<string>)
    ensures Lines([line] + rest) == (line + "\n") + Lines(rest)
  {
    assert ([line] + rest)[1..] == rest;
  }

  lemma LinesOne(s: string)
    ensures Lines([s]) == s + "\n"
  {
    assert [s][1..] == [];
  }
}
