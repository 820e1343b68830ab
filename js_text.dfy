/**
 * The JavaScript string built-ins the transcript editor relies on: the `\s` character class
 * and `.` of a regular expression, `String.prototype.trim`, `split(' ')`, `join(' ')` and the
 * UTF-16 `length` of a string.
 */
module JsText {

  /** The line terminators of ECMAScript: the characters `.` in a regular expression does not match. */
  predicate IsLineTerminator(c: char) {
    c == '\n' || c == '\r' || c == '\U{2028}' || c == '\U{2029}'
  }

  /** The `\s` class of ECMAScript regular expressions; `trim` strips exactly these characters. */
  predicate IsWhiteSpace(c: char) {
    || IsLineTerminator(c)
    || c == '\t' || c == '\U{000B}' || c == '\U{000C}' || c == ' '
    || c == '\U{00A0}' || c == '\U{FEFF}' || c == '\U{1680}'
    || ('\U{2000}' <= c <= '\U{200A}')
    || c == '\U{202F}' || c == '\U{205F}' || c == '\U{3000}'
  }

  /** `s.length` in JavaScript counts UTF-16 code units: a character outside the BMP counts twice. */
  function Utf16Length(s: string): (n: nat)
    ensures |s| <= n <= 2 * |s|
  {
    if s == [] then 0 else (if s[0] as int > 0xFFFF then 2 else 1) + Utf16Length(s[1..])
  }

  /** Leading white space removed: what is dropped is white space, what is kept does not start with it. */
  function TrimStart(s: string): (r: string)
    ensures |r| <= |s| && r == s[|s| - |r|..]
    ensures forall i :: 0 <= i < |s| - |r| ==> IsWhiteSpace(s[i])
    ensures r == [] || !IsWhiteSpace(r[0])
  {
    if s != [] && IsWhiteSpace(s[0]) then TrimStart(s[1..]) else s
  }

  /** Trailing white space removed: what is dropped is white space, what is kept does not end with it. */
  function TrimEnd(s: string): (r: string)
    ensures |r| <= |s| && r == s[..|r|]
    ensures forall i :: |r| <= i < |s| ==> IsWhiteSpace(s[i])
    ensures r == [] || !IsWhiteSpace(r[|r| - 1])
  {
    if s != [] && IsWhiteSpace(s[|s| - 1]) then TrimEnd(s[..|s| - 1]) else s
  }

  /**
   * `String.prototype.trim`: never longer than its argument, and blank exactly when every
   * character of the argument is white space.
   */
  function Trim(s: string): (r: string)
    ensures |r| <= |s|
    ensures r == [] <==> forall i :: 0 <= i < |s| ==> IsWhiteSpace(s[i])
  {
    TrimEnd(TrimStart(s))
  }

  /** The trimmed string is a contiguous piece of the original that neither starts nor ends with white space. */
  lemma TrimIsInnerPiece(s: string)
    ensures exists a, b :: 0 <= a <= b <= |s| && Trim(s) == s[a..b]
    ensures Trim(s) == [] || (!IsWhiteSpace(Trim(s)[0]) && !IsWhiteSpace(Trim(s)[|Trim(s)| - 1]))
  {
    var t := TrimStart(s);
    var a := |s| - |t|;
    var r := TrimEnd(t);
    assert t == s[a..];
    assert r == t[..|r|];
    assert r == s[a..a + |r|];
    assert Trim(s) == r;
    if r != [] {
      assert r[0] == t[0];
    }
  }

  /** `s.split(' ')`: the pieces between single spaces; there is always at least one piece. */
  function Split(s: string): (pieces: seq<string>)
    ensures |pieces| >= 1
    ensures forall i :: 0 <= i < |pieces| ==> ' ' !in pieces[i]
  {
    if s == [] then [""]
    else
      var rest := Split(s[1..]);
      if s[0] == ' ' then [""] + rest
      else [[s[0]] + rest[0]] + rest[1..]
  }

  /** `words.join(' ')`: the first word begins the result, followed by a space when more come. */
  function Join(words: seq<string>): (r: string)
    ensures words != [] ==> words[0] <= r
    ensures |words| > 1 ==> |r| > |words[0]| && r[|words[0]|] == ' '
  {
    if |words| == 0 then ""
    else if |words| == 1 then words[0]
    else words[0] + " " + Join(words[1..])
  }

  /** Joining the pieces of a split with single spaces gives back the string that was split. */
  lemma {:induction false} JoinSplit(s: string)
    ensures Join(Split(s)) == s
  {
    if s != [] {
      var rest := Split(s[1..]);
      JoinSplit(s[1..]);
      if s[0] == ' ' {
        assert Join(Split(s)) == "" + " " + Join(rest);
      } else if |rest| == 1 {
        assert Join(Split(s)) == [s[0]] + rest[0];
      } else {
        var w := [[s[0]] + rest[0]] + rest[1..];
        assert w[1..] == rest[1..];
        assert Join(w) == ([s[0]] + rest[0]) + " " + Join(rest[1..]);
        assert Join(rest) == rest[0] + " " + Join(rest[1..]);
      }
      assert s == [s[0]] + s[1..];
    }
  }

  /** Splitting a piece that holds no space, followed by a space and more text. */
  lemma {:induction false} SplitAfterWord(a: string, b: string)
    requires ' ' !in a
    ensures Split(a + " " + b) == [a] + Split(b)
  {
    if a == [] {
      assert a + " " + b == [' '] + b;
      assert (a + " " + b)[1..] == b;
    } else {
      assert (a + " " + b)[1..] == a[1..] + " " + b;
      SplitAfterWord(a[1..], b);
      assert [a[0]] + a[1..] == a;
    }
  }

  /** A piece with no space splits into itself. */
  lemma {:induction false} SplitWord(a: string)
    requires ' ' !in a
    ensures Split(a) == [a]
  {
    if a != [] {
      SplitWord(a[1..]);
      assert [a[0]] + a[1..] == a;
    }
  }

  /** Splitting a join of space-free pieces gives back the pieces. */
  lemma {:induction false} SplitJoin(words: seq<string>)
    requires |words| >= 1
    requires forall i :: 0 <= i < |words| ==> ' ' !in words[i]
    ensures Split(Join(words)) == words
  {
    if |words| == 1 {
      SplitWord(words[0]);
    } else {
      SplitJoin(words[1..]);
      SplitAfterWord(words[0], Join(words[1..]));
      assert [words[0]] + words[1..] == words;
    }
  }

  /** A join splits at any interior boundary into the join of the head pieces, a space and the join of the rest. */
  lemma {:induction false} JoinAt(words: seq<string>, k: nat)
    requires 0 < k < |words|
    ensures Join(words) == Join(words[..k]) + " " + Join(words[k..])
  {
    if k > 1 {
      JoinAt(words[1..], k - 1);
      assert words[1..][..k - 1] == words[..k][1..];
      assert words[1..][k - 1..] == words[k..];
      assert Join(words[..k]) == words[0] + " " + Join(words[..k][1..]);
    } else {
      assert words[..1] == [words[0]];
      assert words[1..] == words[k..];
    }
  }
}
