/** The handful of java.lang.String operations the organiser relies on, written
    out as explicit functions on seq<char>: trim, startsWith, indexOf, contains,
    split on a literal separator, an ASCII toLowerCase and the "\\S+" check. */
module JavaStrings {

  /** String.trim removes every leading and trailing character whose code is at
      most U+0020 (space and all control characters below it). */
  predicate IsTrimSpace(c: char) {
    c <= ' '
  }

  /** What requireNonBlank calls blank: trim() leaves nothing. */
  predicate IsBlank(s: string) {
    forall i :: 0 <= i < |s| ==> IsTrimSpace(s[i])
  }

  /** A string trim() leaves as it is. */
  predicate IsTrimmed(s: string) {
    s == [] || (!IsTrimSpace(s[0]) && !IsTrimSpace(s[|s| - 1]))
  }

  /** The first position at or after i that holds no blank, or |s|. */
  function SkipBlanks(s: string, i: nat): (j: nat)
    requires i <= |s|
    ensures i <= j <= |s|
    ensures forall k :: i <= k < j ==> IsTrimSpace(s[k])
    ensures j < |s| ==> !IsTrimSpace(s[j])
    decreases |s| - i
  {
    if i < |s| && IsTrimSpace(s[i]) then SkipBlanks(s, i + 1) else i
  }

  /** The end of s[lo..j] once its trailing blanks are cut off. */
  function CutBlanks(s: string, lo: nat, j: nat): (k: nat)
    requires lo <= j <= |s|
    ensures lo <= k <= j
    ensures forall m :: k <= m < j ==> IsTrimSpace(s[m])
    ensures k > lo ==> !IsTrimSpace(s[k - 1])
    decreases j
  {
    if j > lo && IsTrimSpace(s[j - 1]) then CutBlanks(s, lo, j - 1) else j
  }

  /** String.trim: the piece of s between its leading and its trailing blanks.
      The result carries no blank at either end, is empty exactly when the
      input is blank, and is no longer than the input. */
  function Trim(s: string): (r: string)
    ensures IsTrimmed(r)
    ensures r == [] <==> IsBlank(s)
    ensures |r| <= |s|
  {
    var a := SkipBlanks(s, 0);
    var b := CutBlanks(s, a, |s|);
    s[a..b]
  }

  /** trim() keeps a slice of its input and removes only blanks around it. */
  lemma TrimSlice(s: string)
    ensures exists a, b :: 0 <= a <= b <= |s| && Trim(s) == s[a..b] && IsBlank(s[..a]) && IsBlank(s[b..])
  {
    var a := SkipBlanks(s, 0);
    var b := CutBlanks(s, a, |s|);
    assert IsBlank(s[..a]) && IsBlank(s[b..]);
    assert Trim(s) == s[a..b];
  }

  /** trim() is the identity on a string that is already trimmed. */
  lemma TrimOfTrimmed(s: string)
    requires IsTrimmed(s)
    ensures Trim(s) == s
  {
  }

  /** trim() is idempotent. */
  lemma TrimIdempotent(s: string)
    ensures Trim(Trim(s)) == Trim(s)
  {
    TrimOfTrimmed(Trim(s));
  }

  /** String.startsWith(prefix). */
  predicate StartsWith(s: string, prefix: string) {
    |prefix| <= |s| && s[..|prefix|] == prefix
  }

  /** s starts with prefix exactly when s is prefix followed by some rest. */
  lemma StartsWithIff(s: string, prefix: string)
    ensures StartsWith(s, prefix) <==> exists rest :: s == prefix + rest
  {
    if StartsWith(s, prefix) {
      assert s == prefix + s[|prefix|..];
    }
    forall rest | s == prefix + rest
      ensures StartsWith(s, prefix)
    {
      assert s[..|prefix|] == prefix;
    }
  }

  /** p occurs in s at position j. */
  predicate OccursAt(s: string, p: string, j: int) {
    0 <= j && j + |p| <= |s| && s[j..j + |p|] == p
  }

  /** String.indexOf(p, from): the first position at or after from where p
      occurs, or -1 when there is none. */
  function IndexOfFrom(s: string, p: string, from: nat): (r: int)
    requires from <= |s|
    ensures r == -1 || (from <= r && OccursAt(s, p, r))
    ensures r == -1 ==> forall j :: from <= j ==> !OccursAt(s, p, j)
    ensures r != -1 ==> forall j :: from <= j < r ==> !OccursAt(s, p, j)
    decreases |s| - from
  {
    if from + |p| > |s| then -1
    else if s[from..from + |p|] == p then from
    else IndexOfFrom(s, p, from + 1)
  }

  /** String.indexOf(p): the first occurrence of p in s, or -1. */
  function IndexOf(s: string, p: string): (r: int)
    ensures r == -1 || OccursAt(s, p, r)
    ensures r == -1 ==> forall j :: !OccursAt(s, p, j)
    ensures r != -1 ==> forall j :: j < r ==> !OccursAt(s, p, j)
  {
    IndexOfFrom(s, p, 0)
  }

  /** String.contains, which Java defines as indexOf(p) >= 0. */
  predicate Contains(s: string, p: string) {
    IndexOf(s, p) >= 0
  }

  /** contains holds exactly when p occurs somewhere in s. */
  lemma ContainsIff(s: string, p: string)
    ensures Contains(s, p) <==> exists j :: OccursAt(s, p, j)
  {
  }

  /** The first occurrence of p is at k when p occurs there and nowhere
      before. */
  lemma IndexOfIs(s: string, p: string, k: int)
    requires OccursAt(s, p, k)
    requires forall j :: 0 <= j < k ==> !OccursAt(s, p, j)
    ensures IndexOf(s, p) == k
  {
  }

  /** A string without the character c contains no pattern holding c. */
  lemma NotContainsChar(s: string, p: string, c: char, i: nat)
    requires i < |p| && p[i] == c && c !in s
    ensures !Contains(s, p)
  {
    forall j | 0 <= j && j + |p| <= |s|
      ensures !OccursAt(s, p, j)
    {
      assert s[j..j + |p|][i] == s[j + i];
    }
  }

  /** trim() removes a space in front of a non-empty trimmed string. */
  lemma TrimPadded(s: string)
    requires s != [] && IsTrimmed(s)
    ensures Trim(" " + s) == s
  {
    var t := " " + s;
    assert t[1] == s[0] && t[|t| - 1] == s[|s| - 1];
    assert SkipBlanks(t, 1) == 1;
    assert SkipBlanks(t, 0) == 1;
    assert CutBlanks(t, 1, |t|) == |t|;
    assert t[1..] == s;
  }

  /** String.split(sep, 2) for a separator with no regex metacharacters:
      the whole string when sep does not occur, otherwise the text before and
      after its first occurrence. */
  function SplitFirst(s: string, sep: string): (parts: seq<string>)
    ensures |parts| == 1 || |parts| == 2
    ensures |parts| == 2 <==> Contains(s, sep)
    ensures |parts| == 1 ==> parts[0] == s
    ensures |parts| == 2 ==> s == parts[0] + sep + parts[1]
    ensures |parts| == 2 ==> forall j :: j < |parts[0]| ==> !OccursAt(s, sep, j)
  {
    var k := IndexOf(s, sep);
    if k == -1 then [s]
    else
      assert s == s[..k] + sep + s[k + |sep|..];
      [s[..k], s[k + |sep|..]]
  }

  /** The fields sep_1 ... sep_n joined by sep. */
  function Join(fields: seq<string>, sep: string): string
  {
    if |fields| == 0 then []
    else if |fields| == 1 then fields[0]
    else fields[0] + sep + Join(fields[1..], sep)
  }

  /** Join of a field in front of a non-empty list. */
  lemma JoinCons(f: string, rest: seq<string>, sep: string)
    requires |rest| >= 1
    ensures Join([f] + rest, sep) == f + sep + Join(rest, sep)
  {
    assert ([f] + rest)[1..] == rest;
  }

  lemma JoinThree(a: string, b: string, c: string, sep: string)
    ensures Join([a, b, c], sep) == a + sep + b + sep + c
  {
    assert [a, b, c] == [a] + [b, c];
    JoinCons(a, [b, c], sep);
    assert [b, c] == [b] + [c];
    JoinCons(b, [c], sep);
  }

  lemma JoinFour(a: string, b: string, c: string, d: string, sep: string)
    ensures Join([a, b, c, d], sep) == a + sep + b + sep + c + sep + d
  {
    assert [a, b, c, d] == [a] + [b, c, d];
    JoinCons(a, [b, c, d], sep);
    JoinThree(b, c, d, sep);
  }

  lemma JoinFive(a: string, b: string, c: string, d: string, e: string, sep: string)
    ensures Join([a, b, c, d, e], sep) == a + sep + b + sep + c + sep + d + sep + e
  {
    assert [a, b, c, d, e] == [a] + [b, c, d, e];
    JoinCons(a, [b, c, d, e], sep);
    JoinFour(b, c, d, e, sep);
  }

  /** The pieces between the leftmost non-overlapping occurrences of sep,
      the way Pattern.split scans its input (before trailing empty pieces are
      removed). */
  function SplitAll(s: string, sep: string): (parts: seq<string>)
    requires |sep| > 0
    ensures |parts| >= 1
    ensures Join(parts, sep) == s
    decreases |s|
  {
    var k := IndexOf(s, sep);
    if k == -1 then [s]
    else
      var rest := SplitAll(s[k + |sep|..], sep);
      assert s == s[..k] + sep + s[k + |sep|..];
      [s[..k]] + rest
  }

  /** No piece holds the separator, and the first piece ends where the first
      occurrence of the separator starts (there is one piece exactly when the
      separator does not occur). */
  lemma {:induction false} SplitAllPieces(s: string, sep: string)
    requires |sep| > 0
    ensures forall i :: 0 <= i < |SplitAll(s, sep)| ==> !Contains(SplitAll(s, sep)[i], sep)
    ensures |SplitAll(s, sep)| == 1 <==> IndexOf(s, sep) == -1
    ensures |SplitAll(s, sep)| > 1 ==> IndexOf(s, sep) == |SplitAll(s, sep)[0]|
    ensures |SplitAll(s, sep)| > 1 ==> SplitAll(s, sep)[1..] == SplitAll(s[IndexOf(s, sep) + |sep|..], sep)
    decreases |s|
  {
    var k := IndexOf(s, sep);
    if k != -1 {
      SplitAllPieces(s[k + |sep|..], sep);
      BeforeFirst(s, sep, k);
    }
  }

  /** The text before the first occurrence of p does not contain p. */
  lemma BeforeFirst(s: string, p: string, k: int)
    requires |p| > 0 && 0 <= k <= |s| && forall j :: j < k ==> !OccursAt(s, p, j)
    ensures !Contains(s[..k], p)
  {
    forall j | 0 <= j && j + |p| <= k
      ensures !OccursAt(s[..k], p, j)
    {
      assert !OccursAt(s, p, j);
      assert s[..k][j..j + |p|] == s[j..j + |p|];
    }
  }

  /** Removes the empty pieces at the end, as split with limit 0 does. */
  function DropTrailingEmpty(parts: seq<string>): (r: seq<string>)
    ensures |r| <= |parts| && r == parts[..|r|]
    ensures r != [] ==> r[|r| - 1] != []
    ensures forall i :: |r| <= i < |parts| ==> parts[i] == []
  {
    if parts != [] && parts[|parts| - 1] == [] then DropTrailingEmpty(parts[..|parts| - 1]) else parts
  }

  /** String.split(sep) (limit 0) for a separator with no regex
      metacharacters. When sep does not occur the input comes back whole, even
      when it is empty; otherwise trailing empty pieces are dropped. */
  function Split(s: string, sep: string): (parts: seq<string>)
    requires |sep| > 0
  {
    if IndexOf(s, sep) == -1 then [s] else DropTrailingEmpty(SplitAll(s, sep))
  }

  /** Without a match split gives the input back as its one piece, even the
      empty input; with one it gives the pieces cut at every occurrence, less
      the empty pieces at the end, and the last piece it keeps is not empty. */
  lemma SplitPieces(s: string, sep: string)
    requires |sep| > 0
    ensures IndexOf(s, sep) == -1 ==> Split(s, sep) == [s]
    ensures IndexOf(s, sep) != -1 ==>
      && |Split(s, sep)| <= |SplitAll(s, sep)|
      && Split(s, sep) == SplitAll(s, sep)[..|Split(s, sep)|]
      && (Split(s, sep) != [] ==> Split(s, sep)[|Split(s, sep)| - 1] != [])
      && (forall i :: |Split(s, sep)| <= i < |SplitAll(s, sep)| ==> SplitAll(s, sep)[i] == [])
  {
  }

  /** The separator of stored lines, " | ". */
  const FieldSeparator: string := " | "

  predicate NoPipe(s: string) {
    '|' !in s
  }

  /** " | " cannot occur in a string without '|'. */
  lemma NoSeparatorWithoutPipe(f: string)
    requires NoPipe(f)
    ensures IndexOf(f, FieldSeparator) == -1
  {
    forall j | 0 <= j && j + 3 <= |f|
      ensures !OccursAt(f, FieldSeparator, j)
    {
      assert f[j..j + 3][1] == f[j + 1] != '|';
    }
  }

  /** In f + p + rest, where the second character of p differs from the
      first and does not occur in f, the first occurrence of p is the one right
      after f. */
  lemma FirstMarkerAfter(f: string, p: string, rest: string)
    requires |p| >= 2 && p[0] != p[1] && p[1] !in f
    ensures IndexOf(f + p + rest, p) == |f|
  {
    var s := f + p + rest;
    assert s[|f|..|f| + |p|] == p;
    forall j | 0 <= j < |f|
      ensures !OccursAt(s, p, j)
    {
      assert s[j + 1] != p[1] by {
        if j + 1 < |f| {
          assert s[j + 1] == f[j + 1];
        } else {
          assert s[j + 1] == p[0];
        }
      }
      if j + |p| <= |s| {
        assert s[j..j + |p|][1] == s[j + 1];
      }
    }
    IndexOfIs(s, p, |f|);
  }

  /** Splitting the join of '|'-free fields gives the fields back. */
  lemma {:induction false} SplitAllJoin(fields: seq<string>)
    requires |fields| >= 1
    requires forall i :: 0 <= i < |fields| ==> NoPipe(fields[i])
    ensures SplitAll(Join(fields, FieldSeparator), FieldSeparator) == fields
    decreases |fields|
  {
    if |fields| == 1 {
      assert Join(fields, FieldSeparator) == fields[0];
      NoSeparatorWithoutPipe(fields[0]);
    } else {
      var tail := Join(fields[1..], FieldSeparator);
      var s := fields[0] + FieldSeparator + tail;
      assert Join(fields, FieldSeparator) == s;
      FirstMarkerAfter(fields[0], FieldSeparator, tail);
      assert s[..|fields[0]|] == fields[0];
      assert s[|fields[0]| + 3..] == tail;
      assert SplitAll(s, FieldSeparator) == [fields[0]] + SplitAll(tail, FieldSeparator);
      SplitAllJoin(fields[1..]);
      assert fields == [fields[0]] + fields[1..];
    }
  }

  /** split(" \\| ") of the join of '|'-free fields whose last field is not
      empty gives the fields back: no trailing piece is dropped. */
  lemma SplitJoin(fields: seq<string>)
    requires |fields| >= 1 && fields[|fields| - 1] != []
    requires forall i :: 0 <= i < |fields| ==> NoPipe(fields[i])
    ensures Split(Join(fields, FieldSeparator), FieldSeparator) == fields
  {
    var s := Join(fields, FieldSeparator);
    SplitAllJoin(fields);
    assert DropTrailingEmpty(fields) == fields;
    if |fields| == 1 {
      assert s == fields[0];
      NoSeparatorWithoutPipe(fields[0]);
    } else {
      var tail := Join(fields[1..], FieldSeparator);
      assert s == fields[0] + FieldSeparator + tail;
      FirstMarkerAfter(fields[0], FieldSeparator, tail);
    }
  }

  /** Character.toLowerCase restricted to ASCII letters. */
  function LowerChar(c: char): char {
    if 'A' <= c <= 'Z' then (c as int - 'A' as int + 'a' as int) as char else c
  }

  /** String.toLowerCase on ASCII text. */
  function ToLower(s: string): (r: string)
    ensures |r| == |s|
    ensures forall i :: 0 <= i < |s| ==> r[i] == LowerChar(s[i])
  {
    seq(|s|, i requires 0 <= i < |s| => LowerChar(s[i]))
  }

  /** The characters the regex class \s stands for (space, tab, newline,
      vertical tab, form feed, carriage return). */
  predicate IsRegexSpace(c: char) {
    c == ' ' || c == '\t' || c == '\n' || c == '\U{000B}' || c == '\U{000C}' || c == '\r'
  }

  /** s.matches("\\S+"): one or more characters, none of them in \s. */
  predicate IsToken(s: string) {
    |s| > 0 && forall i :: 0 <= i < |s| ==> !IsRegexSpace(s[i])
  }

  /** The empty string is no token, two words with a space between are not
      one, and two tokens written together are one. */
  lemma TokenWords(a: string, b: string)
    ensures !IsToken([])
    ensures !IsToken(a + " " + b)
    ensures IsToken(a) && IsToken(b) ==> IsToken(a + b)
  {
    assert (a + " " + b)[|a|] == ' ';
    if IsToken(a) && IsToken(b) {
      forall i | 0 <= i < |a + b|
        ensures !IsRegexSpace((a + b)[i])
      {
        if i < |a| {
          assert (a + b)[i] == a[i];
        } else {
          assert (a + b)[i] == b[i - |a|];
        }
      }
    }
  }

  function DigitChar(d: nat): char
    requires d < 10
  {
    ('0' as int + d) as char
  }

  /** The decimal form of n, as string concatenation prints an int. */
  function Decimal(n: nat): (r: string)
    ensures |r| >= 1
    decreases n
  {
    if n < 10 then [DigitChar(n)] else Decimal(n / 10) + [DigitChar(n % 10)]
  }
}
