/**
 * The newsletter form of src/components/Footer.jsx: `handleNewsletterSubmit`
 * tests the typed email against `/^[^\s@]+@[^\s@]+\.[^\s@]+$/` and, when it
 * matches, steps `subscribeStatus` from "loading" to "success" (clearing
 * the email) or to "error".
 */
module Footer {

  /** The four values `subscribeStatus` takes. */
  datatype Status = Idle | Loading | Success | Error

  /**
   * The characters of the regular-expression class `\s`: the ECMAScript
   * white-space and line-terminator characters.
   */
  predicate IsWhitespace(c: char) {
    || ('\U{0009}' <= c <= '\U{000D}')
    || c == ' ' || c == '\U{00A0}' || c == '\U{1680}'
    || ('\U{2000}' <= c <= '\U{200A}')
    || c == '\U{2028}' || c == '\U{2029}' || c == '\U{202F}' || c == '\U{205F}'
    || c == '\U{3000}' || c == '\U{FEFF}'
  }

  /** The character class `[^\s@]`. */
  predicate Plain(c: char) {
    !IsWhitespace(c) && c != '@'
  }

  /** Every character of `s` is in `[^\s@]`. */
  predicate AllPlain(s: string) {
    forall i :: 0 <= i < |s| ==> Plain(s[i])
  }

  /** The index of the first `c` in `s`, or `|s|` when there is none. */
  function IndexOf(s: string, c: char): (i: nat)
    ensures i <= |s|
    ensures i < |s| ==> s[i] == c
    ensures forall j :: 0 <= j < i ==> s[j] != c
  {
    if |s| == 0 then 0
    else if s[0] == c then 0
    else 1 + IndexOf(s[1..], c)
  }

  /**
   * The pattern test, written out: split at the first '@'; the part before
   * is non-empty, neither part holds white space or another '@', and the
   * part after has a '.' that is neither its first nor its last character.
   */
  predicate MatchesEmailPattern(s: string) {
    var k := IndexOf(s, '@');
    k < |s| && 0 < k && AllPlain(s[..k]) && AllPlain(s[k + 1..])
    && |s[k + 1..]| >= 3 && '.' in s[k + 1..][1..|s[k + 1..]| - 1]
  }

  /**
   * The regular expression's own reading: `s` is `A + "@" + B + "." + C`
   * with `A`, `B` and `C` non-empty runs of `[^\s@]`, the '@' at `k` and
   * the '.' at `j`.
   */
  ghost predicate SplitsAt(s: string, k: int, j: int) {
    && 0 < k && k + 1 < j && j + 1 < |s|
    && s[k] == '@' && s[j] == '.'
    && AllPlain(s[..k]) && AllPlain(s[k + 1..j]) && AllPlain(s[j + 1..])
  }

  ghost predicate RegexMatches(s: string) {
    exists k, j :: SplitsAt(s, k, j)
  }

  /** The hand-written test accepts exactly the strings the regular expression matches. */
  lemma MatchesEmailPatternIff(s: string)
    ensures MatchesEmailPattern(s) <==> RegexMatches(s)
  {
    var k := IndexOf(s, '@');
    if MatchesEmailPattern(s) {
      var t := s[k + 1..];
      var m :| 0 <= m < |t[1..|t| - 1]| && t[1..|t| - 1][m] == '.';
      var j := k + 2 + m;
      assert s[j] == '.';
      var b, c := s[k + 1..j], s[j + 1..];
      assert AllPlain(b) by {
        forall i | 0 <= i < |b| ensures Plain(b[i]) {
          assert b[i] == t[i];
        }
      }
      assert AllPlain(c) by {
        forall i | 0 <= i < |c| ensures Plain(c[i]) {
          assert c[i] == t[j - k + i];
        }
      }
      assert SplitsAt(s, k, j);
    }
    if RegexMatches(s) {
      var k', j :| SplitsAt(s, k', j);
      assert forall i :: 0 <= i < k' ==> s[..k'][i] == s[i];
      assert k == k';
      var t := s[k + 1..];
      assert AllPlain(t) by {
        forall i | 0 <= i < |t| ensures Plain(t[i]) {
          if i < j - k - 1 {
            assert t[i] == s[k + 1..j][i];
          } else if i > j - k - 1 {
            assert t[i] == s[j + 1..][i - (j - k)];
          }
        }
      }
      assert t[1..|t| - 1][j - k - 2] == '.';
    }
  }

  /**
   * What an accepted email looks like: no white space, exactly one '@'
   * with text before it, and after the '@' a '.' that neither follows the
   * '@' directly nor ends the string.
   */
  lemma AcceptedEmailShape(s: string)
    requires MatchesEmailPattern(s)
    ensures s != ""
    ensures forall i :: 0 <= i < |s| ==> !IsWhitespace(s[i])
    ensures exists k :: 0 < k < |s| && s[k] == '@' && (forall i :: 0 <= i < |s| && s[i] == '@' ==> i == k)
              && exists j :: k + 1 < j < |s| - 1 && s[j] == '.'
  {
    MatchesEmailPatternIff(s);
    var k, j :| SplitsAt(s, k, j);
    forall i | 0 <= i < |s|
      ensures !IsWhitespace(s[i]) && (s[i] == '@' ==> i == k)
    {
      if i < k {
        assert s[i] == s[..k][i];
      } else if k < i < j {
        assert s[i] == s[k + 1..j][i - k - 1];
      } else if j < i {
        assert s[i] == s[j + 1..][i - j - 1];
      }
    }
  }

  /** The guard of line 20: an email is submitted only when non-empty and matching. */
  predicate Accepts(email: string) {
    email != "" && MatchesEmailPattern(email)
  }

  /** The two state variables of the component. */
  datatype Form = Form(email: string, status: Status)

  /**
   * The synchronous part of `handleNewsletterSubmit`, up to the `await`:
   * a rejected email changes nothing; an accepted one sets "loading" and
   * keeps the email.
   */
  function Submit(f: Form): (g: Form)
    ensures g.email == f.email
    ensures g.status == Loading <==> Accepts(f.email) || f.status == Loading
    ensures !Accepts(f.email) ==> g == f
  {
    if !Accepts(f.email) then f else f.(status := Loading)
  }

  /**
   * The continuation after the `await`: success sets "success" and clears
   * the email; a failure sets "error" and keeps it. Either way the form
   * leaves "loading", so the button is enabled again.
   */
  function Settle(f: Form, failed: bool): (g: Form)
    ensures g.status != Loading
    ensures !failed ==> g.status == Success && g.email == ""
    ensures failed ==> g.status == Error && g.email == f.email
  {
    if failed then f.(status := Error) else Form("", Success)
  }

  /** `disabled={subscribeStatus === "loading"}` on the submit button. */
  predicate SubmitEnabled(f: Form) {
    f.status != Loading
  }

  /**
   * A full submission of an accepted email: the button is disabled while it
   * runs, and it ends in "success" with an empty field, or in "error" with
   * the email still there.
   */
  lemma SubmissionCycle(f: Form, failed: bool)
    requires Accepts(f.email)
    ensures !SubmitEnabled(Submit(f))
    ensures !failed ==> Settle(Submit(f), failed) == Form("", Success)
    ensures failed ==> Settle(Submit(f), failed) == Form(f.email, Error)
    ensures SubmitEnabled(Settle(Submit(f), failed))
  {
  }

  /** The empty string is rejected on both counts of the guard. */
  lemma EmptyEmailRejected(status: Status)
    ensures !MatchesEmailPattern("")
    ensures Submit(Form("", status)) == Form("", status)
  {
  }

  /** The component's state: the `email` and `subscribeStatus` hooks. */
  class NewsletterForm {
    var email: string
    var status: Status

    /** `useState("")` and `useState("idle")`. */
    constructor ()
      ensures email == "" && status == Idle
    {
      email := "";
      status := Idle;
    }

    function State(): Form
      reads this
    {
      Form(email, status)
    }

    /** The input's `onChange`. */
    method Input(value: string)
      modifies this
      ensures email == value && status == old(status)
    {
      email := value;
    }

    /** The body of `handleNewsletterSubmit` up to the `await`; `started` says it got past line 20. */
    method HandleSubmit() returns (started: bool)
      modifies this
      ensures started <==> Accepts(old(email))
      ensures State() == Submit(old(State()))
    {
      if email == "" || !MatchesEmailPattern(email) {
        started := false;
        return;
      }
      status := Loading;
      started := true;
    }

    /** The `try`/`catch` after the `await`; `failed` stands for the awaited step rejecting. */
    method Complete(failed: bool)
      modifies this
      ensures State() == Settle(old(State()), failed)
    {
      if failed {
        status := Error;
      } else {
        status := Success;
        email := "";
      }
    }
  }
}
