/**
 * The three transactional mails: each fills placeholders of an HTML template with
 * `String.prototype.replace` and hands recipient, subject and body to the mailer.
 *
 * `replace` with a string pattern replaces only the first occurrence, and its replacement
 * string is read through the `$` patterns of GetSubstitution (section 22.1.3.19.1 of
 * ECMAScript 2023): `$$` is a dollar sign, `$&` the matched text, `` $` `` the text before
 * it and `$'` the text after it; with no capture groups every other `$` is literal. The
 * templates themselves are parameters.
 */
module Emails {
  import opened Wrappers

  const PlaceholderOpen: char := '{'

  /** Whether `pat` occurs in `s` at position `i`. */
  predicate MatchesAt(s: string, pat: string, i: nat)
  {
    i + |pat| <= |s| && s[i..i + |pat|] == pat
  }

  /** `s.indexOf(pat, from)`: the first position at or after `from` where `pat` occurs. */
  function IndexOfFrom(s: string, pat: string, from: nat): (r: Option<nat>)
    requires from <= |s|
    ensures r.Some? ==> from <= r.value && MatchesAt(s, pat, r.value)
    ensures r.Some? ==> forall i :: from <= i < r.value ==> !MatchesAt(s, pat, i)
    ensures r.None? ==> forall i :: from <= i <= |s| ==> !MatchesAt(s, pat, i)
    decreases |s| - from
  {
    if MatchesAt(s, pat, from) then Some(from)
    else if from == |s| then None
    else IndexOfFrom(s, pat, from + 1)
  }

  function IndexOf(s: string, pat: string): (r: Option<nat>)
    ensures r.Some? ==> MatchesAt(s, pat, r.value) && forall i :: 0 <= i < r.value ==> !MatchesAt(s, pat, i)
    ensures r.None? ==> forall i :: 0 <= i <= |s| ==> !MatchesAt(s, pat, i)
  {
    IndexOfFrom(s, pat, 0)
  }

  predicate NoChar(s: string, c: char)
  {
    forall i :: 0 <= i < |s| ==> s[i] != c
  }

  /**
   * GetSubstitution with no capture groups: the replacement text for a match of `matched`
   * at `position` in `str`.
   */
  function Substitution(matched: string, str: string, position: nat, replacement: string): string
    requires position + |matched| <= |str|
    decreases |replacement|
  {
    if replacement == [] then []
    else if replacement[0] == '$' && |replacement| >= 2 then
      var rest := Substitution(matched, str, position, replacement[2..]);
      match replacement[1]
      case '$' => "$" + rest
      case '&' => matched + rest
      case '`' => str[..position] + rest
      case '\'' => str[position + |matched|..] + rest
      case _ => "$" + Substitution(matched, str, position, replacement[1..])
    else [replacement[0]] + Substitution(matched, str, position, replacement[1..])
  }

  /** A replacement without a dollar sign is inserted as it is. */
  lemma {:induction false} LiteralSubstitution(matched: string, str: string, position: nat, replacement: string)
    requires position + |matched| <= |str|
    requires NoChar(replacement, '$')
    ensures Substitution(matched, str, position, replacement) == replacement
    decreases |replacement|
  {
    if replacement != [] {
      LiteralSubstitution(matched, str, position, replacement[1..]);
      assert replacement == [replacement[0]] + replacement[1..];
    }
  }

  /** `s.replace(pat, replacement)` for a string pattern. */
  function ReplaceFirst(s: string, pat: string, replacement: string): (r: string)
    // without an occurrence nothing changes
    ensures IndexOf(s, pat).None? ==> r == s
    // the text before the first occurrence and everything after it, later occurrences included, are kept
    ensures IndexOf(s, pat).Some? ==>
              var p := IndexOf(s, pat).value;
              && s[..p] <= r
              && |s| - p - |pat| <= |r| && r[|r| - (|s| - p - |pat|)..] == s[p + |pat|..]
  {
    match IndexOf(s, pat)
    case None => s
    case Some(p) =>
      var middle := Substitution(pat, s, p, replacement);
      var r := s[..p] + middle + s[p + |pat|..];
      assert r[|r| - (|s| - p - |pat|)..] == s[p + |pat|..];
      r
  }

  /** With a dollar-free replacement, the first occurrence is replaced by exactly that text. */
  lemma ReplaceFirstLiteral(s: string, pat: string, replacement: string)
    requires NoChar(replacement, '$') && IndexOf(s, pat).Some?
    ensures var p := IndexOf(s, pat).value;
            ReplaceFirst(s, pat, replacement) == s[..p] + replacement + s[p + |pat|..]
  {
    LiteralSubstitution(pat, s, IndexOf(s, pat).value, replacement);
  }

  /** In a template whose text before a brace-opened placeholder has no brace, that is the first occurrence. */
  lemma FirstPlaceholder(before: string, placeholder: string, after: string)
    requires |placeholder| > 0 && placeholder[0] == PlaceholderOpen
    requires NoChar(before, PlaceholderOpen)
    ensures IndexOf(before + placeholder + after, placeholder) == Some(|before|)
  {
    var s := before + placeholder + after;
    assert MatchesAt(s, placeholder, |before|) by {
      assert s[|before|..|before| + |placeholder|] == placeholder;
    }
    forall i | 0 <= i < |before| ensures !MatchesAt(s, placeholder, i) {
      assert s[i] == before[i];
      assert i + |placeholder| <= |s| ==> s[i..i + |placeholder|][0] == s[i];
    }
  }

  /**
   * Filling a placeholder that opens with a brace, in a template whose text before the
   * placeholder has no brace, with a dollar-free value: the value takes the placeholder's
   * place and nothing else changes.
   */
  lemma FillPlaceholder(before: string, placeholder: string, after: string, value: string)
    requires |placeholder| > 0 && placeholder[0] == PlaceholderOpen
    requires NoChar(before, PlaceholderOpen) && NoChar(value, '$')
    ensures ReplaceFirst(before + placeholder + after, placeholder, value) == before + value + after
  {
    var s := before + placeholder + after;
    FirstPlaceholder(before, placeholder, after);
    ReplaceFirstLiteral(s, placeholder, value);
    assert s[..|before|] == before && s[|before| + |placeholder|..] == after;
  }

  /** A dollar pattern in a value is expanded: a name of `$&` puts the placeholder itself back. */
  lemma DollarPatternExpanded()
    ensures ReplaceFirst("Hi {fullName}", "{fullName}", "$&") == "Hi {fullName}"
  {
    var s := "Hi " + "{fullName}" + "";
    assert s == "Hi {fullName}";
    FirstPlaceholder("Hi ", "{fullName}", "");
    assert Substitution("{fullName}", s, 3, "$&") == "{fullName}" + Substitution("{fullName}", s, 3, "");
    assert s[..3] == "Hi " && s[13..] == "";
  }

  /** What `sendMail(to, subject, html)` is asked to send. */
  datatype Mail = Mail(to: string, subject: string, html: string)

  const VerificationSubject: string := "Verify Your Email"
  const ResetRequestSubject: string := "Password Reset Request"
  const ResetSuccessSubject: string := "Password Reset Successful"

  /** `sendVerificationEmail`: the code replaces `{verificationCode}`, then the name `{fullName}`. */
  function VerificationMail(template: string, toEmail: string, verificationCode: string, fullName: string): (m: Mail)
    ensures m.to == toEmail && m.subject == VerificationSubject
  {
    Mail(toEmail, VerificationSubject,
         ReplaceFirst(ReplaceFirst(template, "{verificationCode}", verificationCode), "{fullName}", fullName))
  }

  /** `sendPasswordResetEmail`: the link replaces `{resetURL}`, then the name `{fullName}`. */
  function ResetRequestMail(template: string, toEmail: string, resetUrl: string, fullName: string): (m: Mail)
    ensures m.to == toEmail && m.subject == ResetRequestSubject
  {
    Mail(toEmail, ResetRequestSubject,
         ReplaceFirst(ReplaceFirst(template, "{resetURL}", resetUrl), "{fullName}", fullName))
  }

  /** `sendPasswordResetSuccessEmail`: the name replaces `{fullName}`. */
  function ResetSuccessMail(template: string, toEmail: string, fullName: string): (m: Mail)
    ensures m.to == toEmail && m.subject == ResetSuccessSubject
  {
    Mail(toEmail, ResetSuccessSubject, ReplaceFirst(template, "{fullName}", fullName))
  }

  /**
   * For a template with the code placeholder before the name placeholder and no other brace
   * ahead of them, a six-digit code and a dollar-free name land exactly in their places.
   */
  lemma VerificationMailFilled(a: string, b: string, c: string, toEmail: string, code: string, fullName: string)
    requires NoChar(a, PlaceholderOpen) && NoChar(b, PlaceholderOpen)
    requires NoChar(code, PlaceholderOpen) && NoChar(code, '$') && NoChar(fullName, '$')
    ensures VerificationMail(a + "{verificationCode}" + b + "{fullName}" + c, toEmail, code, fullName).html
            == a + code + b + fullName + c
  {
    var rest := b + "{fullName}" + c;
    assert a + "{verificationCode}" + b + "{fullName}" + c == a + "{verificationCode}" + rest;
    FillPlaceholder(a, "{verificationCode}", rest, code);
    var head := a + code + b;
    assert NoChar(head, PlaceholderOpen) by {
      forall i | 0 <= i < |head| ensures head[i] != PlaceholderOpen {
        if i < |a| { assert head[i] == a[i]; }
        else if i < |a| + |code| { assert head[i] == code[i - |a|]; }
        else { assert head[i] == b[i - |a| - |code|]; }
      }
    }
    assert a + code + rest == head + "{fullName}" + c;
    FillPlaceholder(head, "{fullName}", c, fullName);
  }

  /** The same for the reset request: the link and a dollar-free name land in their places. */
  lemma ResetRequestMailFilled(a: string, b: string, c: string, toEmail: string, resetUrl: string, fullName: string)
    requires NoChar(a, PlaceholderOpen) && NoChar(b, PlaceholderOpen)
    requires NoChar(resetUrl, PlaceholderOpen) && NoChar(resetUrl, '$') && NoChar(fullName, '$')
    ensures ResetRequestMail(a + "{resetURL}" + b + "{fullName}" + c, toEmail, resetUrl, fullName).html
            == a + resetUrl + b + fullName + c
  {
    var rest := b + "{fullName}" + c;
    assert a + "{resetURL}" + b + "{fullName}" + c == a + "{resetURL}" + rest;
    FillPlaceholder(a, "{resetURL}", rest, resetUrl);
    var head := a + resetUrl + b;
    assert NoChar(head, PlaceholderOpen) by {
      forall i | 0 <= i < |head| ensures head[i] != PlaceholderOpen {
        if i < |a| { assert head[i] == a[i]; }
        else if i < |a| + |resetUrl| { assert head[i] == resetUrl[i - |a|]; }
        else { assert head[i] == b[i - |a| - |resetUrl|]; }
      }
    }
    assert a + resetUrl + rest == head + "{fullName}" + c;
    FillPlaceholder(head, "{fullName}", c, fullName);
  }

  /** A template without the name placeholder is sent unchanged. */
  lemma ResetSuccessWithoutPlaceholder(template: string, toEmail: string, fullName: string)
    requires NoChar(template, PlaceholderOpen)
    ensures ResetSuccessMail(template, toEmail, fullName).html == template
  {
    NoPlaceholderNoMatch(template, "{fullName}");
  }

  /** Text without a brace holds no placeholder that opens with one. */
  lemma NoPlaceholderNoMatch(s: string, placeholder: string)
    requires |placeholder| > 0 && placeholder[0] == PlaceholderOpen
    requires NoChar(s, PlaceholderOpen)
    ensures IndexOf(s, placeholder).None?
  {
    forall i | 0 <= i <= |s| ensures !MatchesAt(s, placeholder, i) {
      assert i + |placeholder| <= |s| ==> s[i..i + |placeholder|][0] == s[i];
    }
  }
}
