/** Shared vocabulary of the ShareIt core: optional values, the closed set of
    failure kinds the services raise, results, and the few java.lang.String
    operations the core relies on (isBlank, toLowerCase, contains). */
module Common {

  datatype Option<+T> = None | Some(value: T)

  /** The exception classes the services throw, one constructor per class.
      NullDereference stands for a NullPointerException that the code as written
      raises; it only appears in the members that model the findings. */
  datatype Error =
    | EntityNotFound
    | ItemNotAvailableForBooking
    | BookOwnItems
    | WrongDates
    | IllegalViewAndUpdate
    | UnsupportedStatus
    | DuplicateEmail
    | WrongOwner
    | NotOwner
    | NotBooker
    | NullDereference

  datatype Result<+T> = Success(value: T) | Failure(error: Error)

  /** Character.isWhitespace: the ASCII controls TAB..CR and FS..US, and the
      Unicode space, line and paragraph separators other than the no-break ones. */
  predicate IsWhitespace(c: char)
  {
    || c == ' ' || ('\t' <= c <= '\r') || ('\U{001C}' <= c <= '\U{001F}')
    || c == '\U{1680}' || ('\U{2000}' <= c <= '\U{2006}') || ('\U{2008}' <= c <= '\U{200A}')
    || c == '\U{2028}' || c == '\U{2029}' || c == '\U{205F}' || c == '\U{3000}'
  }

  /** String.isBlank: empty, or whitespace only. A Java null string is modelled
      by "", which every guard of the form `s != null && !s.isBlank()` treats alike. */
  predicate IsBlank(s: string)
  {
    forall i :: 0 <= i < |s| ==> IsWhitespace(s[i])
  }

  /** The value an optional text field is replaced by: only a present, non-blank one. */
  predicate Replaces(s: string)
  {
    !IsBlank(s)
  }

  function LowerChar(c: char): (r: char)
    ensures 'A' <= c <= 'Z' ==> 'a' <= r <= 'z' && r as int - c as int == 32
    ensures !('A' <= c <= 'Z') ==> r == c
  {
    if 'A' <= c <= 'Z' then (c as int + 32) as char else c
  }

  /** String.toLowerCase on the ASCII letters. */
  function ToLower(s: string): (r: string)
    ensures |r| == |s|
    ensures forall i :: 0 <= i < |s| ==> r[i] == LowerChar(s[i])
  {
    seq(|s|, i requires 0 <= i < |s| => LowerChar(s[i]))
  }

  /** `t` occurs in `s` starting at index `i`. */
  predicate OccursAt(s: string, t: string, i: int)
  {
    0 <= i && i + |t| <= |s| && s[i..i + |t|] == t
  }

  /** String.contains, computed by scanning `s` from the left. */
  function Contains(s: string, t: string): (r: bool)
    ensures r <==> exists i :: OccursAt(s, t, i)
    decreases |s|
  {
    if |t| > |s| then
      false
    else if s[..|t|] == t then
      assert OccursAt(s, t, 0);
      true
    else
      var r := Contains(s[1..], t);
      forall i ensures OccursAt(s, t, i) <==> (i == 0 && s[..|t|] == t) || OccursAt(s[1..], t, i - 1) {
        if i >= 1 { OccursShift(s, t, i); }
      }
      assert r ==> exists i :: OccursAt(s, t, i) by {
        if r {
          var j :| OccursAt(s[1..], t, j);
          OccursShift(s, t, j + 1);
          assert OccursAt(s, t, j + 1);
        }
      }
      r
  }

  /** Dropping the first character shifts every occurrence one place left. */
  lemma OccursShift(s: string, t: string, i: int)
    requires |s| > 0 && i >= 1
    ensures OccursAt(s, t, i) <==> OccursAt(s[1..], t, i - 1)
  {
    if i + |t| <= |s| {
      assert s[1..][i - 1..i - 1 + |t|] == s[i..i + |t|];
    }
  }

  /** Case-insensitive containment, as `a.toLowerCase().contains(b.toLowerCase())`. */
  predicate ContainsIgnoreCase(s: string, t: string)
  {
    Contains(ToLower(s), ToLower(t))
  }
}
