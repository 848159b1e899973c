/**
 * Shared vocabulary of the shop backend model: document ids, handler
 * outcomes (an HTTP status plus a message, or a value), and the few string
 * operations of JavaScript that the controllers rely on (`trim`,
 * `toLowerCase`, the `\s` character class).
 */
module Common {

  /** A Mongo ObjectId, read as the 96-bit number its 24 hex digits spell. */
  type Id = nat

  datatype Option<T> = None | Some(value: T)
  {
    function GetOr(default: T): T
    {
      match this
      case Some(v) => v
      case None => default
    }
  }

  /** What a handler answers: a value on success, or an HTTP status and message. */
  datatype Result<T> = Ok(value: T) | Err(status: int, message: string)
  {
    predicate IsOk() { Ok? }
  }

  /**
   * A handler that writes as it goes: the documents as they are after the
   * request (including writes made before an error was detected) and the
   * answer it sent.
   */
  datatype Outcome<S, T> = Outcome(state: S, result: Result<T>)

  // ---------------------------------------------------------------------
  // JavaScript whitespace, trimming and ASCII lowercasing
  // ---------------------------------------------------------------------

  /** The characters JavaScript's `\s` class and `String.prototype.trim` treat as white space. */
  predicate IsSpace(c: char)
  {
    ('\U{0009}' <= c <= '\U{000D}') || c == ' ' || c == '\U{00A0}' || c == '\U{1680}'
    || ('\U{2000}' <= c <= '\U{200A}') || c == '\U{2028}' || c == '\U{2029}'
    || c == '\U{202F}' || c == '\U{205F}' || c == '\U{3000}' || c == '\U{FEFF}'
  }

  predicate AllSpace(s: string)
  {
    forall i :: 0 <= i < |s| ==> IsSpace(s[i])
  }

  /** The number of white-space characters `s` starts with. */
  function LeadingSpaces(s: string): (n: nat)
    ensures n <= |s|
    ensures forall k :: 0 <= k < n ==> IsSpace(s[k])
    ensures n == |s| || !IsSpace(s[n])
  {
    if |s| > 0 && IsSpace(s[0]) then 1 + LeadingSpaces(s[1..]) else 0
  }

  function TrimEnd(s: string): (r: string)
    ensures |r| <= |s| && r == s[..|r|]
    ensures forall k :: |r| <= k < |s| ==> IsSpace(s[k])
    ensures r == [] || !IsSpace(r[|r| - 1])
  {
    if |s| > 0 && IsSpace(s[|s| - 1]) then TrimEnd(s[..|s| - 1]) else s
  }

  /**
   * `String.prototype.trim`: the result is the part of `s` between its
   * leading and its trailing white space.
   */
  function Trim(s: string): (r: string)
    ensures LeadingSpaces(s) + |r| <= |s|
    ensures r == s[LeadingSpaces(s)..LeadingSpaces(s) + |r|]
    ensures forall k :: LeadingSpaces(s) + |r| <= k < |s| ==> IsSpace(s[k])
    ensures r == [] || (!IsSpace(r[0]) && !IsSpace(r[|r| - 1]))
  {
    var n := LeadingSpaces(s);
    var r := TrimEnd(s[n..]);
    assert forall k :: n + |r| <= k < |s| ==> s[k] == s[n..][k - n];
    r
  }

  lemma LeadingSpacesOfTrimmed(s: string)
    requires s == [] || !IsSpace(s[0])
    ensures LeadingSpaces(s) == 0
  {
  }

  lemma TrimEndOfTrimmed(s: string)
    requires s == [] || !IsSpace(s[|s| - 1])
    ensures TrimEnd(s) == s
  {
  }

  /** A string with no white space at either end. */
  predicate Trimmed(s: string)
  {
    s == [] || (!IsSpace(s[0]) && !IsSpace(s[|s| - 1]))
  }

  /** Trimming yields a trimmed string, and leaves a trimmed string as it is. */
  lemma TrimmedIsFixpoint(s: string)
    ensures Trimmed(Trim(s))
    ensures Trimmed(s) ==> Trim(s) == s
  {
    if Trimmed(s) {
      LeadingSpacesOfTrimmed(s);
      assert s[0..] == s;
      TrimEndOfTrimmed(s);
    }
  }

  /** Trimming twice is trimming once. */
  lemma TrimIdempotent(s: string)
    ensures Trim(Trim(s)) == Trim(s)
  {
    var t := Trim(s);
    LeadingSpacesOfTrimmed(t);
    assert t[0..] == t;
    TrimEndOfTrimmed(t);
  }

  lemma {:induction false} LeadingSpacesOfPadded(pre: string, u: string)
    requires AllSpace(pre) && (u == [] || !IsSpace(u[0]))
    ensures LeadingSpaces(pre + u) == |pre|
    decreases |pre|
  {
    if pre == [] {
      assert pre + u == u;
    } else {
      assert (pre + u)[1..] == pre[1..] + u;
      assert IsSpace((pre + u)[0]);
      LeadingSpacesOfPadded(pre[1..], u);
    }
  }

  lemma {:induction false} TrimEndOfPadded(u: string, post: string)
    requires AllSpace(post) && (u == [] || !IsSpace(u[|u| - 1]))
    ensures TrimEnd(u + post) == u
    decreases |post|
  {
    if post == [] {
      assert u + post == u;
    } else {
      var s := u + post;
      assert IsSpace(s[|s| - 1]);
      assert s[..|s| - 1] == u + post[..|post| - 1];
      TrimEndOfPadded(u, post[..|post| - 1]);
    }
  }

  /** Trimming removes exactly the white space around a trimmed string. */
  lemma TrimPadded(pre: string, t: string, post: string)
    requires AllSpace(pre) && AllSpace(post) && t != [] && Trimmed(t)
    ensures Trim(pre + t + post) == t
  {
    var s := pre + t + post;
    assert s == pre + (t + post);
    LeadingSpacesOfPadded(pre, t + post);
    assert s[|pre|..] == t + post;
    TrimEndOfPadded(t, post);
  }

  /** A string of white space only (including the empty string) trims to "". */
  lemma {:induction false} TrimOfBlank(s: string)
    requires AllSpace(s)
    ensures Trim(s) == []
  {
    if |s| > 0 {
      TrimOfBlank(s[1..]);
      assert LeadingSpaces(s) == 1 + LeadingSpaces(s[1..]);
    }
  }
  /** Trimming leaves nothing exactly when the string is white space only. */
  lemma TrimEmptyIffBlank(s: string)
    ensures Trim(s) == [] <==> AllSpace(s)
  {
    if AllSpace(s) {
      TrimOfBlank(s);
    }
  }


  /** `toLowerCase` on one character, for the ASCII letters. */
  function LowerChar(c: char): (d: char)
    ensures !('A' <= d <= 'Z')
    ensures 'a' <= c <= 'z' ==> d == c
    ensures !('A' <= c <= 'Z') ==> d == c
  {
    if 'A' <= c <= 'Z' then (c as int - 'A' as int + 'a' as int) as char else c
  }

  /** `toLowerCase` for ASCII; every other character is kept. */
  function Lower(s: string): (r: string)
    ensures |r| == |s|
    ensures forall i :: 0 <= i < |s| ==> r[i] == LowerChar(s[i])
  {
    seq(|s|, i requires 0 <= i < |s| => LowerChar(s[i]))
  }

  lemma LowerIdempotent(s: string)
    ensures Lower(Lower(s)) == Lower(s)
  {
  }

  /** `s.replace(/\s+/g, "")`: every white-space character removed. */
  function RemoveSpaces(s: string): (r: string)
    ensures |r| <= |s|
    ensures forall i :: 0 <= i < |r| ==> !IsSpace(r[i])
    ensures AllSpace(s) ==> r == []
  {
    if s == [] then []
    else if IsSpace(s[0]) then RemoveSpaces(s[1..])
    else [s[0]] + RemoveSpaces(s[1..])
  }

  /** The least element of a set of ids. */
  predicate IsLeast(g: set<Id>, m: Id)
  {
    m in g && forall x :: x in g ==> m <= x
  }

  lemma {:induction false} LeastExists(g: set<Id>)
    requires g != {}
    ensures exists m :: IsLeast(g, m)
    decreases |g|
  {
    var x :| x in g;
    if g != {x} {
      LeastExists(g - {x});
      var m :| IsLeast(g - {x}, m);
      var l := if x < m then x else m;
      forall y | y in g
        ensures l <= y
      {
        if y != x {
          assert y in g - {x};
        }
      }
      assert IsLeast(g, l);
    } else {
      assert IsLeast(g, x);
    }
  }

  function Least(g: set<Id>): (m: Id)
    requires g != {}
    ensures IsLeast(g, m)
  {
    LeastExists(g);
    var m :| IsLeast(g, m);
    m
  }
}
