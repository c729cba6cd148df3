// The string operations of Go's standard library that the target connectors
// rely on: strings.Split with a one-character separator, its inverse
// strings.Join, strings.TrimSpace with unicode.IsSpace, and the "each element
// followed by a separator" layout that both the tab-separated output lines and
// the comma-joined driver values are built from.
//
// A Go string (and a []byte) is modelled as a sequence of characters, one
// character per rune; the functions are generic where the bytes of a driver
// buffer use the same shape.

module Text {

  /** Applies f to every element of s, keeping the order. */
  function Map<A, B>(f: A -> B, s: seq<A>): seq<B>
  {
    seq(|s|, i requires 0 <= i < |s| => f(s[i]))
  }

  /** The number of occurrences of x in s. */
  function Count<T(==)>(s: seq<T>, x: T): nat
  {
    if s == [] then 0 else (if s[0] == x then 1 else 0) + Count(s[1..], x)
  }

  /** strings.Split(s, sep): the pieces of s between the occurrences of sep.
      There is one piece more than there are separators, so a string without
      sep, the empty string included, is a single piece. */
  function Split<T(==)>(s: seq<T>, sep: T): (parts: seq<seq<T>>)
    ensures |parts| == Count(s, sep) + 1
  {
    if s == [] then [[]]
    else
      var rest := Split(s[1..], sep);
      if s[0] == sep then [[]] + rest
      else [[s[0]] + rest[0]] + rest[1..]
  }

  /** No piece of a split holds the separator. */
  lemma {:induction false} SplitPiecesLackSep<T>(s: seq<T>, sep: T, i: nat)
    requires i < |Split(s, sep)|
    ensures sep !in Split(s, sep)[i]
  {
    if s != [] {
      var rest := Split(s[1..], sep);
      if s[0] == sep {
        if i > 0 {
          SplitPiecesLackSep(s[1..], sep, i - 1);
        }
      } else {
        SplitPiecesLackSep(s[1..], sep, i);
        if i == 0 {
          assert Split(s, sep)[0] == [s[0]] + rest[0];
        } else {
          assert Split(s, sep)[i] == rest[i];
        }
      }
    }
  }

  /** strings.Join(parts, sep): the parts with one sep between neighbours. */
  function Join<T>(parts: seq<seq<T>>, sep: T): seq<T>
  {
    if parts == [] then []
    else if |parts| == 1 then parts[0]
    else parts[0] + [sep] + Join(parts[1..], sep)
  }

  /** Every part followed by one sep, in order (so sep also ends a non-empty result). */
  function Terminated<T>(parts: seq<seq<T>>, sep: T): seq<T>
  {
    if parts == [] then [] else parts[0] + [sep] + Terminated(parts[1..], sep)
  }

  /** Joining the pieces of a split gives the string back. */
  lemma {:induction false} JoinSplit<T>(s: seq<T>, sep: T)
    ensures Join(Split(s, sep), sep) == s
  {
    if s != [] {
      var rest := Split(s[1..], sep);
      JoinSplit(s[1..], sep);
      if s[0] == sep {
        assert Split(s, sep) == [[]] + rest;
      } else if |rest| == 1 {
        assert Split(s, sep) == [[s[0]] + rest[0]];
      } else {
        assert Split(s, sep) == [[s[0]] + rest[0]] + rest[1..];
        assert Join(rest, sep) == rest[0] + [sep] + Join(rest[1..], sep);
      }
    }
  }

  /** A string without sep is one piece. */
  lemma {:induction false} SplitWithoutSep<T>(p: seq<T>, sep: T)
    requires sep !in p
    ensures Split(p, sep) == [p]
  {
    if p != [] {
      SplitWithoutSep(p[1..], sep);
      assert [p[0]] + p[1..] == p;
    }
  }

  /** A leading piece without sep, followed by sep, splits off as the first piece. */
  lemma {:induction false} SplitAfterPiece<T>(p: seq<T>, sep: T, t: seq<T>)
    requires sep !in p
    ensures Split(p + [sep] + t, sep) == [p] + Split(t, sep)
  {
    var s := p + [sep] + t;
    if p == [] {
      assert s == [sep] + t && s[1..] == t;
    } else {
      assert s[1..] == p[1..] + [sep] + t;
      SplitAfterPiece(p[1..], sep, t);
      assert [p[0]] + p[1..] == p;
    }
  }

  /** Splitting a join gives the parts back when no part holds the separator. */
  lemma {:induction false} SplitJoin<T>(parts: seq<seq<T>>, sep: T)
    requires |parts| >= 1
    requires forall i :: 0 <= i < |parts| ==> sep !in parts[i]
    ensures Split(Join(parts, sep), sep) == parts
  {
    if |parts| == 1 {
      SplitWithoutSep(parts[0], sep);
    } else {
      SplitJoin(parts[1..], sep);
      SplitAfterPiece(parts[0], sep, Join(parts[1..], sep));
      assert [parts[0]] + parts[1..] == parts;
    }
  }

  /** Appending one part to a terminated layout appends that part and one sep. */
  lemma {:induction false} TerminatedSnoc<T>(parts: seq<seq<T>>, p: seq<T>, sep: T)
    ensures Terminated(parts + [p], sep) == Terminated(parts, sep) + p + [sep]
  {
    if parts == [] {
      assert [p][1..] == [];
    } else {
      assert (parts + [p])[1..] == parts[1..] + [p];
      TerminatedSnoc(parts[1..], p, sep);
    }
  }

  /** A non-empty terminated layout is the join followed by one sep. */
  lemma {:induction false} TerminatedIsJoinThenSep<T>(parts: seq<seq<T>>, sep: T)
    requires |parts| >= 1
    ensures Terminated(parts, sep) == Join(parts, sep) + [sep]
  {
    if |parts| > 1 {
      TerminatedIsJoinThenSep(parts[1..], sep);
    }
  }

  /** Splitting a terminated layout gives the parts back plus one empty trailing piece. */
  lemma {:induction false} SplitTerminated<T>(parts: seq<seq<T>>, sep: T)
    requires forall i :: 0 <= i < |parts| ==> sep !in parts[i]
    ensures Split(Terminated(parts, sep), sep) == parts + [[]]
  {
    if parts != [] {
      SplitTerminated(parts[1..], sep);
      SplitAfterPiece(parts[0], sep, Terminated(parts[1..], sep));
      assert [parts[0]] + parts[1..] == parts;
    }
  }

  /** A join ends with its last part: nothing, in particular no sep, follows it. */
  lemma {:induction false} JoinEndsWithLast<T>(parts: seq<seq<T>>, sep: T)
    requires |parts| >= 1
    ensures var j, last := Join(parts, sep), parts[|parts| - 1];
            |last| <= |j| && j[|j| - |last|..] == last
  {
    if |parts| > 1 {
      JoinEndsWithLast(parts[1..], sep);
    }
  }

  /** unicode.IsSpace: the Latin-1 spaces and the other Unicode White_Space runes. */
  predicate IsSpace(c: char)
    ensures c as int < 0x80 ==> (IsSpace(c) <==> c == ' ' || '\t' <= c <= '\r')
    ensures IsSpace(c) ==> c as int <= 0x3000
  {
    var n := c as int;
    || n == 0x09 || n == 0x0A || n == 0x0B || n == 0x0C || n == 0x0D || n == 0x20
    || n == 0x85 || n == 0xA0 || n == 0x1680 || 0x2000 <= n <= 0x200A
    || n == 0x2028 || n == 0x2029 || n == 0x202F || n == 0x205F || n == 0x3000
  }

  predicate AllSpace(s: string)
  {
    forall i :: 0 <= i < |s| ==> IsSpace(s[i])
  }

  /** A white-space character added at either end of an all-space string keeps it all space. */
  lemma AllSpaceAround(c: char, t: string)
    requires IsSpace(c) && AllSpace(t)
    ensures AllSpace([c] + t) && AllSpace(t + [c])
  {
  }

  /** strings.TrimLeftFunc(s, unicode.IsSpace): the suffix after the leading white space. */
  function TrimLeft(s: string): (r: string)
    ensures |r| <= |s| && r == s[|s| - |r|..]
    ensures AllSpace(s[..|s| - |r|])
    ensures r != [] ==> !IsSpace(r[0])
  {
    if s != [] && IsSpace(s[0]) then
      var r := TrimLeft(s[1..]);
      assert s[..|s| - |r|] == [s[0]] + s[1..][..|s| - 1 - |r|];
      AllSpaceAround(s[0], s[1..][..|s| - 1 - |r|]);
      r
    else s
  }

  /** strings.TrimRightFunc(s, unicode.IsSpace): the prefix before the trailing white space. */
  function TrimRight(s: string): (r: string)
    ensures |r| <= |s| && r == s[..|r|]
    ensures AllSpace(s[|r|..])
    ensures r != [] ==> !IsSpace(r[|r| - 1])
  {
    if s != [] && IsSpace(s[|s| - 1]) then
      var r := TrimRight(s[..|s| - 1]);
      assert s[|r|..] == s[..|s| - 1][|r|..] + [s[|s| - 1]];
      AllSpaceAround(s[|s| - 1], s[..|s| - 1][|r|..]);
      r
    else s
  }

  /** strings.TrimSpace: s without its leading and trailing white space. It is
      empty exactly when s is all white space, and otherwise starts and ends
      with a character that is not white space. */
  function TrimSpace(s: string): (r: string)
    ensures |r| == 0 <==> AllSpace(s)
    ensures r != [] ==> !IsSpace(r[0]) && !IsSpace(r[|r| - 1])
  {
    var left := TrimLeft(s);
    var k := |s| - |left|;
    assert left == [] ==> s[..k] == s;
    assert left != [] ==> s[k] == left[0];
    if left != [] then TrimRightKeepsFirst(left); TrimRight(left) else TrimRight(left)
  }

  /** Trimming the right of a string that starts with a non-space keeps that first character. */
  lemma TrimRightKeepsFirst(s: string)
    requires s != [] && !IsSpace(s[0])
    ensures TrimRight(s) != [] && TrimRight(s)[0] == s[0]
  {
  }
}
