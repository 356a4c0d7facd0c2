/** The two input-cleaning helpers of the backend: `validate_email` and `sanitize_string`. */
module Helpers {
  import opened Options
  import opened Text

  /** Position of the first `c` in `s`, or `|s|` when `c` does not occur. */
  function IndexOf(s: string, c: char): (k: nat)
    ensures k <= |s| && c !in s[..k]
    ensures k < |s| ==> s[k] == c
    ensures c !in s ==> k == |s|
  {
    if s == [] then 0
    else if s[0] == c then 0
    else
      var k := 1 + IndexOf(s[1..], c);
      assert s[..k] == [s[0]] + s[1..][..k - 1];
      k
  }

  /** The part of an address after its first '@', up to the next '@' or the end. */
  function DomainPart(email: string): string
    requires '@' in email
  {
    var rest := email[IndexOf(email, '@') + 1..];
    rest[..IndexOf(rest, '@')]
  }

  /** The first piece of a split on '@' runs up to the first '@'. */
  lemma FirstPieceEndsAtSeparator(s: string)
    ensures Split(s, "@")[0] == s[..IndexOf(s, '@')]
  {
    var j := IndexOf(s, '@');
    if j < |s| {
      var q, r := s[..j], s[j + 1..];
      assert s == q + "@" + r;
      SplitFromAt(q, "@", r, []);
      assert [] + q == q;
    } else {
      SplitFromNoSeparator(s, "@", []);
      assert [] + s == s[..j];
    }
  }

  /** `email.split('@')[1]` is the domain part. */
  lemma SecondPieceIsDomainPart(email: string)
    requires '@' in email
    ensures |Split(email, "@")| >= 2 && Split(email, "@")[1] == DomainPart(email)
  {
    var i := IndexOf(email, '@');
    var q, rest := email[..i], email[i + 1..];
    assert email == q + "@" + rest;
    SplitFromAt(q, "@", rest, []);
    assert Split(email, "@") == [[] + q] + Split(rest, "@");
    FirstPieceEndsAtSeparator(rest);
  }

  /**
   * `validate_email`: an absent or empty address is invalid; otherwise the
   * address is valid exactly when it holds an '@' and its domain part holds a '.'.
   */
  function ValidateEmail(email: Option<string>): (ok: bool)
    ensures email.None? || email == Some("") ==> !ok
    ensures email.Some? ==> (ok <==> '@' in email.value && '.' in DomainPart(email.value))
  {
    if email.None? || email.value == [] then false
    else
      '@' in email.value
      && (SecondPieceIsDomainPart(email.value); '.' in Split(email.value, "@")[1])
  }

  /** Python's `t[:k]`: the first `k` characters, or for a negative `k` all but the last `-k`. */
  function SlicePrefix(t: string, k: int): (r: string)
    ensures IsPrefix(r, t)
    ensures k >= 0 ==> |r| == if k <= |t| then k else |t|
    ensures k < 0 ==> |r| == if |t| + k >= 0 then |t| + k else 0
  {
    if k >= 0 then (if k <= |t| then t[..k] else t)
    else if |t| + k >= 0 then t[..|t| + k]
    else []
  }

  /**
   * `sanitize_string`: strips the text and, when a non-zero `maxLength` is
   * exceeded, cuts it with Python slice semantics.
   */
  function SanitizeString(text: Option<string>, maxLength: Option<int>): (r: string)
    ensures text.None? || text == Some("") ==> r == ""
    ensures IsPrefix(r, Strip(text.GetOr("")))
    ensures maxLength.None? || maxLength == Some(0) ==> r == Strip(text.GetOr(""))
    ensures maxLength.Some? && maxLength.value > 0 ==> |r| <= maxLength.value
    ensures maxLength.Some? && maxLength.value > 0 && |Strip(text.GetOr(""))| > maxLength.value
            ==> |r| == maxLength.value
    ensures (text.Some? && text.value != []
             && (maxLength.None? || maxLength.value == 0 || |Strip(text.value)| <= maxLength.value))
            ==> r == Strip(text.value)
    ensures text.Some? && text.value != [] && maxLength.Some? && maxLength.value < 0
            ==> r == SlicePrefix(Strip(text.value), maxLength.value)
    ensures r == [] || !IsWhitespace(r[0])
  {
    if text.None? || text.value == [] then []
    else
      var t := Strip(text.value);
      StripFacts(text.value);
      if maxLength.Some? && maxLength.value != 0 && |t| > maxLength.value then SlicePrefix(t, maxLength.value)
      else t
  }
}
