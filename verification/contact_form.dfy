/**
 * The contact form's submit handler (portfolio.js, lines 31-64): the three fields are read and
 * trimmed, then checked in a fixed order: name, email, message.  The first failing check is
 * reported; if all pass, the trimmed values are stored and the page redirects.
 *
 * A field whose element is missing reads as `undefined` (the `?.` in lines 37-39), modelled as
 * `None`.
 */
module ContactForm {

  import opened Wrappers

  /**
   * The characters JavaScript's `\s` and `String.prototype.trim` both treat as blank: the
   * ECMAScript WhiteSpace and LineTerminator productions.
   */
  function IsSpace(c: char): (b: bool)
    ensures c as int < 0x80 ==> (b <==> c in {'\t', '\n', '\U{B}', '\U{C}', '\r', ' '})
    ensures b ==> c != '@' && c != '.'
  {
    var u := c as int;
    || u == 0x09 || u == 0x0A || u == 0x0B || u == 0x0C || u == 0x0D || u == 0x20
    || u == 0xA0 || u == 0x1680 || (0x2000 <= u <= 0x200A) || u == 0x2028 || u == 0x2029
    || u == 0x202F || u == 0x205F || u == 0x3000 || u == 0xFEFF
  }

  predicate AllSpace(s: string)
  {
    forall k :: 0 <= k < |s| ==> IsSpace(s[k])
  }

  /** The length of the blank run that starts `s`. */
  function LeadingBlanks(s: string): (n: nat)
    ensures n <= |s|
    ensures forall k :: 0 <= k < n ==> IsSpace(s[k])
    ensures n == |s| || !IsSpace(s[n])
    decreases |s|
  {
    if |s| > 0 && IsSpace(s[0]) then
      var m := LeadingBlanks(s[1..]);
      assert forall k :: 1 <= k < m + 1 ==> s[k] == s[1..][k - 1];
      m + 1
    else
      0
  }

  /** The length of `s` once the blank run that ends it is removed. */
  function KeptLength(s: string): (n: nat)
    ensures n <= |s|
    ensures forall k :: n <= k < |s| ==> IsSpace(s[k])
    ensures n == 0 || !IsSpace(s[n - 1])
    decreases |s|
  {
    if |s| > 0 && IsSpace(s[|s| - 1]) then
      var m := KeptLength(s[..|s| - 1]);
      assert forall k :: m <= k < |s| - 1 ==> s[k] == s[..|s| - 1][k];
      m
    else
      |s|
  }

  /** Drops leading blanks: the result is the suffix of `s` after its blank prefix. */
  function TrimStart(s: string): (r: string)
    ensures |r| <= |s| && r == s[|s| - |r|..]
    ensures AllSpace(s[..|s| - |r|])
    ensures |r| == 0 || !IsSpace(r[0])
  {
    s[LeadingBlanks(s)..]
  }

  /** Drops trailing blanks: the result is the prefix of `s` before its blank suffix. */
  function TrimEnd(s: string): (r: string)
    ensures |r| <= |s| && r == s[..|r|]
    ensures AllSpace(s[|r|..])
    ensures |r| == 0 || !IsSpace(r[|r| - 1])
  {
    s[..KeptLength(s)]
  }

  /** `r` is `s` with a blank prefix of length `i` and a blank suffix removed. */
  predicate CutFrom(s: string, r: string, i: int)
  {
    0 <= i <= |s| - |r| && r == s[i..i + |r|] && AllSpace(s[..i]) && AllSpace(s[i + |r|..])
  }

  /** `String.prototype.trim`. */
  function Trim(s: string): (r: string)
    ensures |r| == 0 <==> AllSpace(s)
    ensures |r| == 0 || (!IsSpace(r[0]) && !IsSpace(r[|r| - 1]))
    ensures exists i :: CutFrom(s, r, i)
  {
    TrimSpec(s);
    TrimEnd(TrimStart(s))
  }

  /** The properties of `Trim`, proved of its definition. */
  lemma TrimSpec(s: string)
    ensures var r := TrimEnd(TrimStart(s));
      && (|r| == 0 <==> AllSpace(s))
      && (|r| == 0 || (!IsSpace(r[0]) && !IsSpace(r[|r| - 1])))
      && CutFrom(s, r, |s| - |TrimStart(s)|)
  {
    var t := TrimStart(s);
    CutOfSuffix(s, t, TrimEnd(t));
  }

  /**
   * Cutting a blank suffix off a suffix of `s` whose own prefix was blank leaves a middle slice
   * of `s` between two blank runs.
   */
  lemma CutOfSuffix(s: string, t: string, r: string)
    requires |t| <= |s| && t == s[|s| - |t|..] && AllSpace(s[..|s| - |t|]) && (|t| == 0 || !IsSpace(t[0]))
    requires |r| <= |t| && r == t[..|r|] && AllSpace(t[|r|..])
    ensures CutFrom(s, r, |s| - |t|)
    ensures |r| == 0 <==> AllSpace(s)
    ensures |r| == 0 || !IsSpace(r[0])
  {
    var i := |s| - |t|;
    assert r == s[i..i + |r|];
    var tail := s[i + |r|..];
    forall k | 0 <= k < |tail| ensures IsSpace(tail[k]) {
      assert tail[k] == t[|r|..][k];
    }
    if |r| == 0 {
      assert t == t[|r|..];
      AllSpaceJoin(s, i);
    } else {
      assert r[0] == t[0];
      assert !IsSpace(s[i]);
    }
  }

  lemma AllSpaceJoin(s: string, i: int)
    requires 0 <= i <= |s| && AllSpace(s[..i]) && AllSpace(s[i..])
    ensures AllSpace(s)
  {
    forall k | 0 <= k < |s| ensures IsSpace(s[k]) {
      if k < i {
        assert s[k] == s[..i][k];
      } else {
        assert s[k] == s[i..][k - i];
      }
    }
  }


  /** A character of `[^\s@]`. */
  predicate TokenChar(c: char)
  {
    !IsSpace(c) && c != '@'
  }

  /**
   * `s` splits as `[^\s@]+ @ [^\s@]+ \. [^\s@]+` with the `@` at `at` and the `.` at `dot`:
   * the three runs are non-empty and every character but the `@` is a token character.
   */
  predicate EmailShape(s: string, at: int, dot: int)
  {
    && 0 < at && at + 1 < dot && dot + 1 < |s|
    && s[at] == '@' && s[dot] == '.'
    && forall k :: 0 <= k < |s| && k != at ==> TokenChar(s[k])
  }

  /** `/^[^\s@]+@[^\s@]+\.[^\s@]+$/.test(s)`. */
  ghost function EmailPattern(s: string): (b: bool)
    ensures b ==> |s| >= 5 && '@' in s && '.' in s
  {
    exists at, dot :: EmailShape(s, at, dot)
  }

  /** Decides the email pattern in two scans: locate the single `@`, then look for a dot after it. */
  method MatchEmail(s: string) returns (ok: bool)
    ensures ok <==> EmailPattern(s)
  {
    var at := -1;
    var k := 0;
    while k < |s|
      invariant 0 <= k <= |s|
      invariant forall m :: 0 <= m < k ==> !IsSpace(s[m])
      invariant at == -1 ==> forall m :: 0 <= m < k ==> s[m] != '@'
      invariant at != -1 ==> 0 <= at < k && s[at] == '@'
      invariant at != -1 ==> forall m :: 0 <= m < k && m != at ==> s[m] != '@'
    {
      if IsSpace(s[k]) {
        return false;
      }
      if s[k] == '@' {
        if at != -1 {
          return false;
        }
        at := k;
      }
      k := k + 1;
    }
    if at < 1 {
      return false;
    }
    var dot := at + 2;
    while dot < |s| - 1
      invariant at + 2 <= dot
      invariant forall m :: at + 2 <= m < dot && m < |s| ==> s[m] != '.'
    {
      if s[dot] == '.' {
        assert EmailShape(s, at, dot);
        return true;
      }
      dot := dot + 1;
    }
    return false;
  }

  /** The `email` value once read: the trimmed text, or `undefined` converted to a string. */
  function EmailText(email: Option<string>): string
  {
    if email.Some? then Trim(email.value) else "undefined"
  }

  /** A missing email field is tested as the text "undefined", which has no `@`. */
  lemma UndefinedIsNotEmail()
    ensures !EmailPattern("undefined")
  {
  }

  /** What `localStorage` receives on success. */
  datatype Submission = Submission(name: string, email: string, message: string)

  /** The handler's outcome: the data stored, or the one alert shown for the first failing check. */
  datatype Outcome = Stored(data: Submission) | NameMissing | EmailInvalid | MessageMissing

  /** True when the field is absent or holds only blanks, i.e. when its trimmed value is falsy. */
  predicate Blank(f: Option<string>)
  {
    f.None? || AllSpace(f.value)
  }

  /** The submit handler's checks, in the order the source runs them. */
  method Submit(name: Option<string>, email: Option<string>, message: Option<string>) returns (r: Outcome)
    ensures r == NameMissing <==> Blank(name)
    ensures r == EmailInvalid <==> !Blank(name) && !EmailPattern(EmailText(email))
    ensures r == MessageMissing <==> !Blank(name) && EmailPattern(EmailText(email)) && Blank(message)
    ensures r.Stored? <==> !Blank(name) && EmailPattern(EmailText(email)) && !Blank(message)
    ensures r.Stored? ==>
      && name.Some? && email.Some? && message.Some?
      && r.data == Submission(Trim(name.value), Trim(email.value), Trim(message.value))
      && |r.data.name| > 0 && |r.data.message| > 0 && EmailPattern(r.data.email)
  {
    var n := if name.Some? then Trim(name.value) else "";
    if name.None? || |n| == 0 {
      return NameMissing;
    }
    var e := EmailText(email);
    var ok := MatchEmail(e);
    if !ok {
      return EmailInvalid;
    }
    if email.None? {
      UndefinedIsNotEmail();
    }
    var m := if message.Some? then Trim(message.value) else "";
    if message.None? || |m| == 0 {
      return MessageMissing;
    }
    return Stored(Submission(n, e, m));
  }

  /** Trimming a trimmed string changes nothing. */
  lemma TrimIdempotent(s: string)
    ensures Trim(Trim(s)) == Trim(s)
  {
  }

  /** A stored email has exactly one `@`, with a non-empty local part before it. */
  lemma StoredEmailHasOneAt(s: string, at: int, dot: int)
    requires EmailShape(s, at, dot)
    ensures forall k :: 0 <= k < |s| ==> (s[k] == '@' <==> k == at)
    ensures at > 0 && AllToken(s[..at])
  {
  }

  predicate AllToken(s: string)
  {
    forall k :: 0 <= k < |s| ==> TokenChar(s[k])
  }
}
