/** The two string operations the list view applies to form input and to stored dates:
    ECMAScript `String.prototype.trim` and `s.split('T')[0]`. */
module Text {

  /** The code points `trim` strips: ECMAScript WhiteSpace (tab, vertical tab, form feed,
      the byte-order mark and every space separator) and LineTerminator (line feed,
      carriage return, line and paragraph separators). */
  const WhitespaceChars: set<char> := {
    '\t', '\U{000B}', '\U{000C}', '\U{FEFF}',
    ' ', '\U{00A0}', '\U{1680}',
    '\U{2000}', '\U{2001}', '\U{2002}', '\U{2003}', '\U{2004}', '\U{2005}',
    '\U{2006}', '\U{2007}', '\U{2008}', '\U{2009}', '\U{200A}',
    '\U{202F}', '\U{205F}', '\U{3000}',
    '\n', '\r', '\U{2028}', '\U{2029}'
  }

  predicate IsWhitespace(c: char)
  {
    c in WhitespaceChars
  }

  predicate AllWhitespace(s: string)
  {
    forall k :: 0 <= k < |s| ==> IsWhitespace(s[k])
  }

  /** A string `trim` leaves alone: empty, or non-whitespace at both ends. */
  predicate IsTrimmed(s: string)
  {
    s == [] || (!IsWhitespace(s[0]) && !IsWhitespace(s[|s| - 1]))
  }

  /** The first index at or after `i` that does not hold whitespace, or |s| when there
      is none: everything skipped is whitespace. */
  function FirstNonBlank(s: string, i: nat): (r: nat)
    requires i <= |s|
    ensures i <= r <= |s|
    ensures forall k :: i <= k < r ==> IsWhitespace(s[k])
    ensures r < |s| ==> !IsWhitespace(s[r])
    decreases |s| - i
  {
    if i < |s| && IsWhitespace(s[i]) then FirstNonBlank(s, i + 1) else i
  }

  /** The index just after the last character of `s[lo..j]` that is not whitespace, or
      `lo` when there is none: everything cut off is whitespace. */
  function EndNonBlank(s: string, lo: nat, j: nat): (r: nat)
    requires lo <= j <= |s|
    ensures lo <= r <= j
    ensures forall k :: r <= k < j ==> IsWhitespace(s[k])
    ensures r > lo ==> !IsWhitespace(s[r - 1])
    decreases j - lo
  {
    if j > lo && IsWhitespace(s[j - 1]) then EndNonBlank(s, lo, j - 1) else j
  }

  /** `s.trim()`: the result has no whitespace at either end, and it is empty
      exactly when `s` is whitespace only. */
  function Trim(s: string): (r: string)
    ensures IsTrimmed(r)
    ensures r == [] <==> AllWhitespace(s)
  {
    var a := FirstNonBlank(s, 0);
    var b := EndNonBlank(s, a, |s|);
    assert a < |s| ==> b > a;
    s[a..b]
  }

  /** `trim` removes only whitespace, and only at the ends: `s` is the result with a
      whitespace-only string on each side. */
  lemma TrimKeepsCore(s: string) returns (front: string, back: string)
    ensures AllWhitespace(front) && AllWhitespace(back)
    ensures s == front + Trim(s) + back
  {
    var a := FirstNonBlank(s, 0);
    var b := EndNonBlank(s, a, |s|);
    front, back := s[..a], s[b..];
    assert s == s[..a] + s[a..b] + s[b..];
  }

  /** The reference definition of `trim`: padding a trimmed string with whitespace on
      both sides and trimming gives the string back. With TrimKeepsCore this pins
      Trim(s) down as the one trimmed core of `s`. */
  lemma TrimUnique(front: string, t: string, back: string)
    requires AllWhitespace(front) && AllWhitespace(back) && IsTrimmed(t)
    ensures Trim(front + t + back) == t
  {
    var s := front + t + back;
    if t == [] {
      assert AllWhitespace(s) by {
        forall k | 0 <= k < |s| ensures IsWhitespace(s[k]) {
          if k < |front| { assert s[k] == front[k]; } else { assert s[k] == back[k - |front|]; }
        }
      }
    } else {
      var n := |front|;
      var m := |front| + |t|;
      assert s[n] == t[0];
      assert s[m - 1] == t[|t| - 1];
      forall k | 0 <= k < n ensures IsWhitespace(s[k]) { assert s[k] == front[k]; }
      forall k | m <= k < |s| ensures IsWhitespace(s[k]) { assert s[k] == back[k - m]; }
      var a := FirstNonBlank(s, 0);
      assert a == n;
      var b := EndNonBlank(s, a, |s|);
      assert b == m;
      assert s[n..m] == t;
    }
  }

  /** Trimming twice is trimming once. */
  lemma TrimIdempotent(s: string)
    ensures Trim(Trim(s)) == Trim(s)
  {
  }

  /** `s.split('T')[0]`: the longest prefix of `s` without a 'T'. Either it is all of
      `s`, or a 'T' follows it. */
  function DatePrefix(s: string): (r: string)
    ensures |r| <= |s| && r == s[..|r|]
    ensures 'T' !in r
    ensures |r| < |s| ==> s[|r|] == 'T'
  {
    if s == [] || s[0] == 'T' then [] else [s[0]] + DatePrefix(s[1..])
  }

  /** The prefix is the date part of a timestamp `date + "T" + time`. */
  lemma {:induction false} DatePrefixOfTimestamp(date: string, time: string)
    requires 'T' !in date
    ensures DatePrefix(date + "T" + time) == date
  {
    if date != [] {
      assert (date + "T" + time)[1..] == date[1..] + "T" + time;
      assert date[0] in date;
      DatePrefixOfTimestamp(date[1..], time);
    }
  }

  /** A string without a 'T' is its own prefix, so taking the prefix twice changes nothing. */
  lemma DatePrefixIdempotent(s: string)
    ensures 'T' !in s ==> DatePrefix(s) == s
    ensures DatePrefix(DatePrefix(s)) == DatePrefix(s)
  {
  }
}
