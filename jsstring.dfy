/**
 * The few ECMAScript string built-ins the application relies on, over
 * strings taken as sequences of characters: the `\s` character class (which
 * is also what `trim` removes), `startsWith`, `endsWith`, `includes`,
 * `toLowerCase` restricted to ASCII, `slice` with negative indices, and
 * `split` on a one-character separator.
 */
module JsString {

  /** WhiteSpace or LineTerminator in ECMAScript: matched by `\s`, removed by `trim`. */
  predicate IsSpace(c: char) {
    c == '\t' || c == '\n' || c == '\U{B}' || c == '\U{C}' || c == '\r' || c == ' '
    || c == '\U{A0}' || c == '\U{1680}' || ('\U{2000}' <= c <= '\U{200A}')
    || c == '\U{2028}' || c == '\U{2029}' || c == '\U{202F}' || c == '\U{205F}'
    || c == '\U{3000}' || c == '\U{FEFF}'
  }

  predicate StartsWith(s: string, prefix: string) {
    |prefix| <= |s| && s[..|prefix|] == prefix
  }

  predicate EndsWith(s: string, suffix: string) {
    |suffix| <= |s| && s[|s| - |suffix|..] == suffix
  }

  /** `pat` occurs in `s` starting at index `i`. */
  predicate OccursAt(s: string, pat: string, i: int) {
    0 <= i && i + |pat| <= |s| && s[i..i + |pat|] == pat
  }

  /** `s.includes(pat)`: scans the start positions from `i` on, left to right. */
  function IncludesFrom(s: string, pat: string, i: nat): (r: bool)
    ensures r <==> exists j :: i <= j && OccursAt(s, pat, j)
    decreases |s| - i
  {
    if i + |pat| > |s| then false
    else if s[i..i + |pat|] == pat then assert OccursAt(s, pat, i); true
    else IncludesFrom(s, pat, i + 1)
  }

  function Includes(s: string, pat: string): bool {
    IncludesFrom(s, pat, 0)
  }

  /** A pattern with a character that `s` lacks does not occur in `s`. */
  lemma AbsentChar(s: string, pat: string, k: nat)
    requires k < |pat| && pat[k] !in s
    ensures !Includes(s, pat)
  {
    assert forall j :: OccursAt(s, pat, j) ==> s[j + k] == pat[k];
  }

  function LowerChar(c: char): char {
    if 'A' <= c <= 'Z' then (c as int + 32) as char else c
  }

  /** `toLowerCase`, for the ASCII letters only. */
  function ToLowerAscii(s: string): (r: string)
    ensures |r| == |s|
    ensures forall i :: 0 <= i < |s| ==> r[i] == LowerChar(s[i])
  {
    if s == [] then [] else [LowerChar(s[0])] + ToLowerAscii(s[1..])
  }

  /** Two strings with the same characters are equal. */
  lemma SameChars(a: string, b: string)
    requires |a| == |b| && forall i :: 0 <= i < |a| ==> a[i] == b[i]
    ensures a == b
  {
  }

  /** A pattern found character by character at `i` occurs there. */
  lemma OccursByChars(l: string, pat: string, i: nat)
    requires i + |pat| <= |l| && forall j :: 0 <= j < |pat| ==> l[i + j] == pat[j]
    ensures OccursAt(l, pat, i)
  {
    var piece := l[i..i + |pat|];
    forall j | 0 <= j < |pat|
      ensures piece[j] == pat[j]
    {
      assert piece[j] == l[i + j];
    }
    SameChars(piece, pat);
  }

  /** A pattern found, character by character, in the lower-cased text occurs in it. */
  lemma IncludesLowered(m: string, pat: string, i: nat)
    requires i + |pat| <= |m| && forall j :: 0 <= j < |pat| ==> LowerChar(m[i + j]) == pat[j]
    ensures Includes(ToLowerAscii(m), pat)
  {
    var l := ToLowerAscii(m);
    OccursByChars(l, pat, i);
  }

  /** A pattern holding a letter that the text lacks in either case does not occur in the lower-cased text. */
  lemma AbsentLowered(m: string, pat: string, k: nat)
    requires k < |pat| && 'a' <= pat[k] <= 'z'
    requires pat[k] !in m && (pat[k] as int - 32) as char !in m
    ensures !Includes(ToLowerAscii(m), pat)
  {
    var l := ToLowerAscii(m);
    assert pat[k] !in l;
    AbsentChar(l, pat, k);
  }

  /** Two strings that differ only in the case of ASCII letters. */
  predicate SameIgnoringCase(a: string, b: string) {
    |a| == |b| && forall i :: 0 <= i < |a| ==> LowerChar(a[i]) == LowerChar(b[i])
  }

  lemma LowerOfCaseVariants(a: string, b: string)
    requires SameIgnoringCase(a, b)
    ensures ToLowerAscii(a) == ToLowerAscii(b)
  {
    var la, lb := ToLowerAscii(a), ToLowerAscii(b);
    assert forall i :: 0 <= i < |la| ==> la[i] == lb[i];
  }

  /** `s.trimStart()` */
  function TrimStart(s: string): (r: string)
    ensures |r| <= |s| && r == s[|s| - |r|..]
    ensures r == [] || !IsSpace(r[0])
    ensures forall i :: 0 <= i < |s| - |r| ==> IsSpace(s[i])
  {
    if s != [] && IsSpace(s[0]) then TrimStart(s[1..]) else s
  }

  /** `s.trimEnd()` */
  function TrimEnd(s: string): (r: string)
    ensures |r| <= |s| && r == s[..|r|]
    ensures r == [] || !IsSpace(r[|r| - 1])
    ensures forall i :: |r| <= i < |s| ==> IsSpace(s[i])
  {
    if s != [] && IsSpace(s[|s| - 1]) then TrimEnd(s[..|s| - 1]) else s
  }

  /** `s.trim()`: a stretch of `s` that neither starts nor ends with white space. */
  function Trim(s: string): (r: string)
    ensures |r| <= |s|
    ensures r == [] || (!IsSpace(r[0]) && !IsSpace(r[|r| - 1]))
  {
    TrimEnd(TrimStart(s))
  }

  /** `s.trim() === ''` holds exactly of the strings made of white space only. */
  lemma TrimEmptyIff(s: string)
    ensures Trim(s) == [] <==> forall i :: 0 <= i < |s| ==> IsSpace(s[i])
  {
    var t := TrimStart(s);
    if forall i :: 0 <= i < |s| ==> IsSpace(s[i]) {
      assert t == [];
    } else {
      assert t != [] && !IsSpace(t[0]);
      assert TrimEnd(t) != [];
    }
  }

  /** ECMAScript's treatment of a `slice` index: negative counts from the end, then clamp. */
  function SliceIndex(i: int, len: nat): (r: nat)
    ensures r <= len
  {
    if i < 0 then (if len + i < 0 then 0 else len + i)
    else if i > len then len
    else i
  }

  /** `s.slice(start, end)`, for strings and arrays alike. */
  function Slice<T>(s: seq<T>, start: int, end: int): seq<T> {
    var from, to := SliceIndex(start, |s|), SliceIndex(end, |s|);
    if from < to then s[from..to] else []
  }

  /** `slice(2, -2)` drops two elements at each end, and leaves nothing of a sequence shorter than five. */
  lemma SliceDropsTwoEach<T>(s: seq<T>)
    ensures |s| >= 4 ==> Slice(s, 2, -2) == s[2..|s| - 2]
    ensures |s| <= 4 ==> Slice(s, 2, -2) == []
  {
  }

  /** `slice(0, -1)` takes back the last append, and leaves an empty sequence empty. */
  lemma SliceDropsLast<T>(s: seq<T>, x: T)
    ensures Slice(s + [x], 0, -1) == s
    ensures Slice<T>([], 0, -1) == []
  {
  }

  /** `s.split(sep)` for a one-character separator: there is always at least one piece. */
  function Split(s: string, sep: char): (r: seq<string>)
    ensures |r| >= 1
  {
    if s == [] then [[]]
    else
      var rest := Split(s[1..], sep);
      if s[0] == sep then [[]] + rest
      else [[s[0]] + rest[0]] + rest[1..]
  }

  /** `parts.join(sep)` */
  function Join(parts: seq<string>, sep: char): string
    requires |parts| >= 1
  {
    if |parts| == 1 then parts[0] else parts[0] + [sep] + Join(parts[1..], sep)
  }

  /** Splitting loses nothing: joining the pieces gives the string back. */
  lemma {:induction false} JoinSplit(s: string, sep: char)
    ensures Join(Split(s, sep), sep) == s
  {
    if s != [] {
      var rest := Split(s[1..], sep);
      JoinSplit(s[1..], sep);
      if s[0] == sep {
        assert Split(s, sep)[1..] == rest;
      } else {
        var r := Split(s, sep);
        assert r[0] == [s[0]] + rest[0];
        if |rest| == 1 {
          assert Join(r, sep) == r[0];
        } else {
          assert r[1..] == rest[1..];
          assert Join(rest, sep) == rest[0] + [sep] + Join(rest[1..], sep);
        }
      }
    }
  }

  /** Splitting a join of separator-free pieces gives back exactly those pieces. */
  lemma {:induction false} SplitJoin(parts: seq<string>, sep: char)
    requires |parts| >= 1
    requires forall i :: 0 <= i < |parts| ==> sep !in parts[i]
    ensures Split(Join(parts, sep), sep) == parts
  {
    if |parts| == 1 {
      SplitPiece(parts[0], [], sep);
      assert parts[0] + [] == parts[0];
    } else {
      SplitJoin(parts[1..], sep);
      var tail := Join(parts[1..], sep);
      assert Split([sep] + tail, sep) == [[]] + parts[1..] by {
        assert ([sep] + tail)[1..] == tail;
      }
      SplitPiece(parts[0], [sep] + tail, sep);
      assert parts[0] + ([sep] + tail) == Join(parts, sep);
      var r := [[]] + parts[1..];
      assert parts[0] + r[0] == parts[0];
      assert [parts[0]] + r[1..] == parts;
    }
  }

  /** A separator-free piece in front of `t` extends the first piece of `Split(t)`. */
  lemma {:induction false} SplitPiece(piece: string, t: string, sep: char)
    requires sep !in piece
    ensures var r := Split(t, sep);
            Split(piece + t, sep) == [piece + r[0]] + r[1..]
  {
    if piece != [] {
      SplitPiece(piece[1..], t, sep);
      assert (piece + t)[1..] == piece[1..] + t;
      assert [piece[0]] + (piece[1..] + Split(t, sep)[0]) == piece + Split(t, sep)[0];
    } else {
      assert piece + t == t;
      var r := Split(t, sep);
      assert piece + r[0] == r[0];
      assert [r[0]] + r[1..] == r;
    }
  }

  /** Splitting a string with a known first character. */
  lemma SplitCons(c: char, t: string, sep: char)
    ensures var r := Split(t, sep);
            Split([c] + t, sep) == if c == sep then [[]] + r else [[c] + r[0]] + r[1..]
  {
    assert ([c] + t)[0] == c && ([c] + t)[1..] == t;
  }

  /** A separator-free line, a separator, then the rest: the line is the first piece. */
  lemma SplitFirstLine(line: string, b: string, sep: char)
    requires sep !in line
    ensures Split(line + [sep] + b, sep) == [line] + Split(b, sep)
  {
    SplitCons(sep, b, sep);
    SplitPiece(line, [sep] + b, sep);
    assert line + [sep] + b == line + ([sep] + b);
    assert line + [] == line;
  }
}
