/** The pieces of ECMAScript string semantics the converter relies on:
    line terminators (where `.` stops and where `^`/`$` match under the `m`
    flag), white space (what `String.prototype.trim` removes), the split of a
    text into lines, and substring search. */
module JsText {
  import opened Options

  /** ECMAScript LineTerminator: LF, CR, LINE SEPARATOR, PARAGRAPH SEPARATOR. */
  predicate IsLineTerminator(c: char) {
    c == '\n' || c == '\r' || c == '\U{2028}' || c == '\U{2029}'
  }

  /** ECMAScript WhiteSpace (TAB, VT, FF, ZWNBSP and the Zs category) or LineTerminator. */
  predicate IsWhiteSpace(c: char) {
    || IsLineTerminator(c)
    || c == '\t' || c == '\U{000B}' || c == '\U{000C}' || c == ' '
    || c == '\U{00A0}' || c == '\U{FEFF}' || c == '\U{1680}'
    || ('\U{2000}' <= c <= '\U{200A}')
    || c == '\U{202F}' || c == '\U{205F}' || c == '\U{3000}'
  }

  predicate AllWhiteSpace(s: string) {
    forall i :: 0 <= i < |s| ==> IsWhiteSpace(s[i])
  }

  /** No line terminator anywhere in `s`: `s` lies within one line. */
  predicate NoBreak(s: string) {
    forall i :: 0 <= i < |s| ==> !IsLineTerminator(s[i])
  }

  lemma {:induction false} NoBreakAppend(a: string, b: string)
    ensures NoBreak(a + b) <==> NoBreak(a) && NoBreak(b)
  {
    if NoBreak(a + b) {
      assert forall i :: 0 <= i < |a| ==> a[i] == (a + b)[i];
      assert forall i :: 0 <= i < |b| ==> b[i] == (a + b)[|a| + i];
    }
  }

  predicate AllBreaks(bs: seq<char>) {
    forall i :: 0 <= i < |bs| ==> IsLineTerminator(bs[i])
  }

  /** The index of the first character at or after `i` that is not white space. */
  function SkipWhiteSpace(s: string, i: nat): (n: nat)
    requires i <= |s|
    ensures i <= n <= |s|
    ensures forall k :: i <= k < n ==> IsWhiteSpace(s[k])
    ensures n == |s| || !IsWhiteSpace(s[n])
    decreases |s| - i
  {
    if i < |s| && IsWhiteSpace(s[i]) then SkipWhiteSpace(s, i + 1) else i
  }

  /** The index just after the last character before `j` that is not white space. */
  function BackOverWhiteSpace(s: string, j: nat): (n: nat)
    requires j <= |s|
    ensures n <= j
    ensures forall k :: n <= k < j ==> IsWhiteSpace(s[k])
    ensures n == 0 || !IsWhiteSpace(s[n - 1])
  {
    if j > 0 && IsWhiteSpace(s[j - 1]) then BackOverWhiteSpace(s, j - 1) else j
  }

  /** `String.prototype.trim`: the text between the leading and the trailing
      white space; empty exactly when the whole text is white space. */
  function Trim(s: string): (r: string)
    ensures r == [] || (!IsWhiteSpace(r[0]) && !IsWhiteSpace(r[|r| - 1]))
    ensures exists i :: 0 <= i <= |s| - |r| && r == s[i..i + |r|]
                        && AllWhiteSpace(s[..i]) && AllWhiteSpace(s[i + |r|..])
    ensures r == [] <==> AllWhiteSpace(s)
  {
    var i := SkipWhiteSpace(s, 0);
    if i == |s| then
      assert s[..i] == s && s[i..] == [] && s[i..i] == [];
      []
    else
      var j := BackOverWhiteSpace(s, |s|);
      assert i < j;
      assert s[i..j][0] == s[i] && s[i..j][j - i - 1] == s[j - 1];
      assert AllWhiteSpace(s[..i]) && AllWhiteSpace(s[j..]);
      s[i..j]
  }

  /** The lines of `s`: the maximal runs of characters between line
      terminators (a text with n terminators has n + 1 lines). */
  function Lines(s: string): (ls: seq<string>)
    ensures |ls| == |Breaks(s)| + 1
    ensures forall k :: 0 <= k < |ls| ==> NoBreak(ls[k])
    decreases |s|
  {
    if s == [] then [[]]
    else if IsLineTerminator(s[0]) then [[]] + Lines(s[1..])
    else
      var rest := Lines(s[1..]);
      [[s[0]] + rest[0]] + rest[1..]
  }

  /** The line terminators of `s`, in order. */
  function Breaks(s: string): (bs: seq<char>)
    ensures AllBreaks(bs)
    decreases |s|
  {
    if s == [] then []
    else if IsLineTerminator(s[0]) then [s[0]] + Breaks(s[1..])
    else Breaks(s[1..])
  }

  /** Lines put back together, each followed by its terminator. */
  function JoinLines(ls: seq<string>, bs: seq<char>): string
    requires |ls| == |bs| + 1
    decreases |bs|
  {
    if bs == [] then ls[0] else ls[0] + [bs[0]] + JoinLines(ls[1..], bs[1..])
  }

  lemma {:induction false} JoinLinesCons(c: char, ls: seq<string>, bs: seq<char>)
    requires |ls| == |bs| + 1
    ensures JoinLines([[c] + ls[0]] + ls[1..], bs) == [c] + JoinLines(ls, bs)
  {
    var ls' := [[c] + ls[0]] + ls[1..];
    assert ls'[0] == [c] + ls[0] && ls'[1..] == ls[1..];
  }

  /** Splitting a text into lines and terminators loses nothing. */
  lemma {:induction false} JoinOfLines(s: string)
    ensures JoinLines(Lines(s), Breaks(s)) == s
    decreases |s|
  {
    if s == [] {
    } else if IsLineTerminator(s[0]) {
      JoinOfLines(s[1..]);
      var ls := [[]] + Lines(s[1..]);
      assert ls[0] == [] && ls[1..] == Lines(s[1..]);
      assert s == [] + [s[0]] + s[1..];
    } else {
      JoinOfLines(s[1..]);
      JoinLinesCons(s[0], Lines(s[1..]), Breaks(s[1..]));
      assert s == [s[0]] + s[1..];
    }
  }

  lemma {:induction false} LinesOfPrefix(l: string, t: string)
    requires NoBreak(l)
    ensures Lines(l + t) == [l + Lines(t)[0]] + Lines(t)[1..]
    ensures Breaks(l + t) == Breaks(t)
    decreases |l|
  {
    if l == [] {
      assert l + t == t;
      assert [] + Lines(t)[0] == Lines(t)[0];
      assert Lines(t) == [Lines(t)[0]] + Lines(t)[1..];
    } else {
      assert (l + t)[0] == l[0] && (l + t)[1..] == l[1..] + t;
      LinesOfPrefix(l[1..], t);
      assert [l[0]] + (l[1..] + Lines(t)[0]) == l + Lines(t)[0];
    }
  }

  /** Joining lines free of terminators and then splitting gives them back. */
  lemma {:induction false} LinesOfJoin(ls: seq<string>, bs: seq<char>)
    requires |ls| == |bs| + 1
    requires forall k :: 0 <= k < |ls| ==> NoBreak(ls[k])
    requires AllBreaks(bs)
    ensures Lines(JoinLines(ls, bs)) == ls
    ensures Breaks(JoinLines(ls, bs)) == bs
    decreases |bs|
  {
    if bs == [] {
      LinesOfPrefix(ls[0], []);
      assert ls[0] + [] == ls[0];
      assert ls == [ls[0]];
    } else {
      var rest := JoinLines(ls[1..], bs[1..]);
      LinesOfJoin(ls[1..], bs[1..]);
      var t := [bs[0]] + rest;
      assert t[0] == bs[0] && t[1..] == rest;
      assert ls[0] + [bs[0]] + rest == ls[0] + t;
      assert Lines(t) == [[]] + ls[1..];
      assert ls[0] + [] == ls[0];
      LinesOfPrefix(ls[0], t);
      assert ls == [ls[0]] + ls[1..];
    }
  }

  /** The terminators of a concatenation are those of its parts. */
  lemma {:induction false} BreaksAppend(a: string, b: string)
    ensures Breaks(a + b) == Breaks(a) + Breaks(b)
    decreases |a|
  {
    if a == [] {
      assert a + b == b;
    } else {
      assert (a + b)[0] == a[0] && (a + b)[1..] == a[1..] + b;
      BreaksAppend(a[1..], b);
    }
  }

  lemma {:induction false} BreaksOfNoBreak(a: string)
    requires NoBreak(a)
    ensures Breaks(a) == []
    decreases |a|
  {
    if a != [] {
      BreaksOfNoBreak(a[1..]);
    }
  }

  /** `d` occurs in `s` starting at index `i`. */
  predicate OccursAt(s: string, d: string, i: int) {
    0 <= i && i + |d| <= |s| && s[i..i + |d|] == d
  }

  /** The prefix up to `j` is the prefix up to `i` followed by the slice between. */
  lemma {:induction false} PrefixSlices(s: string, i: nat, j: nat)
    requires i <= j <= |s|
    ensures s[..j] == s[..i] + s[i..j]
    ensures j == |s| ==> s == s[..i] + s[i..]
  {
  }

  /** Cutting `s` at three indices and gluing the pieces back gives `s`. */
  lemma {:induction false} CutFour(s: string, i: nat, j: nat, k: nat)
    requires i <= j <= k <= |s|
    ensures s == s[..i] + s[i..j] + s[j..k] + s[k..]
  {
    assert s[..i] + s[i..j] == s[..j];
    assert s[..j] + s[j..k] == s[..k];
  }

  lemma {:induction false} OccursAtTail(s: string, d: string, k: nat)
    requires s != []
    ensures OccursAt(s[1..], d, k) <==> OccursAt(s, d, k + 1)
  {
    if 0 <= k && k + 1 + |d| <= |s| {
      assert s[1..][k..k + |d|] == s[k + 1..k + 1 + |d|];
    }
  }

  /** The first index at or after `from` where `d` occurs (`indexOf`). */
  function FindFrom(s: string, d: string, from: nat): (r: Option<nat>)
    requires from <= |s|
    ensures r.Some? ==> from <= r.value && OccursAt(s, d, r.value)
                        && forall k :: from <= k < r.value ==> !OccursAt(s, d, k)
    ensures r.None? ==> forall k :: from <= k <= |s| ==> !OccursAt(s, d, k)
    decreases |s| - from
  {
    if OccursAt(s, d, from) then Some(from)
    else if from == |s| then None
    else FindFrom(s, d, from + 1)
  }

  /** The last index at or after `from` where `d` occurs (`lastIndexOf`, bounded below). */
  function FindLastFrom(s: string, d: string, from: nat): (r: Option<nat>)
    requires from <= |s|
    ensures r.Some? ==> from <= r.value && OccursAt(s, d, r.value)
                        && forall k :: r.value < k <= |s| ==> !OccursAt(s, d, k)
    ensures r.None? ==> forall k :: from <= k <= |s| ==> !OccursAt(s, d, k)
    decreases |s| - from
  {
    match FindFrom(s, d, from)
    case None => None
    case Some(k) =>
      if k == |s| then Some(k)
      else match FindLastFrom(s, d, k + 1)
        case Some(j) => Some(j)
        case None => Some(k)
  }

  /** The first index of character `c` in `s`. */
  function IndexOf(s: string, c: char): (r: Option<nat>)
    ensures r.Some? ==> r.value < |s| && s[r.value] == c
                        && forall k :: 0 <= k < r.value ==> s[k] != c
    ensures r.None? ==> forall k :: 0 <= k < |s| ==> s[k] != c
    decreases |s|
  {
    if s == [] then None
    else if s[0] == c then Some(0)
    else match IndexOf(s[1..], c)
      case Some(k) => Some(k + 1)
      case None => None
  }
}
