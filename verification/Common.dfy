/** Datatypes shared by every component model. */
module Common {

  datatype Option<+T> = None | Some(value: T)

  /** A C++ call that either returns a value or throws. */
  datatype Result<+T, +E> = Ok(value: T) | Err(error: E)

  /** The decimal digits of a number, as std::to_string and lexical_cast print it. */
  function Digits(n: nat): (s: string)
    ensures |s| > 0
    ensures forall i :: 0 <= i < |s| ==> '0' <= s[i] <= '9'
  {
    if n < 10 then [DigitChar(n)] else Digits(n / 10) + [DigitChar(n % 10)]
  }

  function DigitChar(d: nat): (c: char)
    requires d < 10
    ensures '0' <= c <= '9'
  {
    ('0' as int + d) as char
  }

  /** All the chunks of a stream, end to end. */
  function Concat<T>(chunks: seq<seq<T>>): seq<T> {
    if chunks == [] then [] else Concat(chunks[..|chunks| - 1]) + chunks[|chunks| - 1]
  }

  // ----- texts with separators -----

  function IndexFrom(s: string, c: char, from: nat): (i: nat)
    requires from <= |s|
    ensures from <= i <= |s| && (forall k :: from <= k < i ==> s[k] != c) && (i < |s| ==> s[i] == c)
    decreases |s| - from
  {
    if from == |s| || s[from] == c then from else IndexFrom(s, c, from + 1)
  }

  /** find: the first position of `c`, or the length. */
  function IndexOf(s: string, c: char): (i: nat)
    ensures i <= |s| && c !in s[..i] && (i < |s| ==> s[i] == c)
  {
    IndexFrom(s, c, 0)
  }

  lemma IndexOfIs(s: string, c: char, i: nat)
    requires i < |s| && s[i] == c && c !in s[..i]
    ensures IndexOf(s, c) == i
  {
    assert forall k :: 0 <= k < i ==> s[..i][k] == s[k];
  }

  lemma InSomewhere(s: string, c: char)
    requires c in s
    ensures IndexOf(s, c) < |s|
  {
    assert s[..|s|] == s;
  }

  predicate Free(s: string, sep: char) {
    forall k :: 0 <= k < |s| ==> s[k] != sep
  }

  /** The components of a text: each separator opens a new one. */
  function Parts(s: string, sep: char): (parts: seq<string>)
    ensures |parts| > 0
  {
    if s == "" then [""] else
    var front, c := Parts(s[..|s| - 1], sep), s[|s| - 1];
    if c == sep then front + [""] else front[..|front| - 1] + [front[|front| - 1] + [c]]
  }

  lemma PartsOfSeparator(s: string, sep: char)
    ensures Parts(s + [sep], sep) == Parts(s, sep) + [""]
  {
    assert (s + [sep])[..|s|] == s;
  }

  /** After a separator, text free of it is the last component. */
  lemma {:induction false} PartsOfPiece(s: string, sep: char, done: seq<string>, piece: string)
    requires Parts(s, sep) == done + [""] && Free(piece, sep)
    ensures Parts(s + piece, sep) == done + [piece]
    decreases |piece|
  {
    if piece == "" {
      assert s + piece == s;
    } else {
      var n := |piece| - 1;
      PartsOfPiece(s, sep, done, piece[..n]);
      PartsOfChar(s + piece[..n], sep, done, piece[..n], piece[n]);
      SplitLast(s, piece);
    }
  }

  lemma SplitLast(s: string, piece: string)
    requires piece != ""
    ensures var n := |piece| - 1; piece == piece[..n] + [piece[n]] && s + piece == s + piece[..n] + [piece[n]]
  {
  }

  lemma PartsOfChar(s: string, sep: char, done: seq<string>, last: string, c: char)
    requires Parts(s, sep) == done + [last] && c != sep
    ensures Parts(s + [c], sep) == done + [last + [c]]
  {
    assert (s + [c])[..|s|] == s;
    assert (done + [last])[..|done|] == done;
  }

  /** Whatever follows a separator leaves the components before it alone. */
  lemma {:induction false} PartsAreKept(s: string, sep: char, more: string)
    ensures var now := Parts(s + [sep] + more, sep); |now| > |Parts(s, sep)| && now[..|Parts(s, sep)|] == Parts(s, sep)
    decreases |more|
  {
    var text := s + [sep] + more;
    if more == "" {
      assert text == s + [sep];
      PartsOfSeparator(s, sep);
    } else {
      PartsAreKept(s, sep, more[..|more| - 1]);
      assert text[..|text| - 1] == s + [sep] + more[..|more| - 1];
    }
  }
}
