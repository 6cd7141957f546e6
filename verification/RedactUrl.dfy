/** Redaction of basic-auth credentials in URLs inside free text. */
module RedactUrl {

  const REDACTED := "[REDACTED]:[REDACTED]"
  const MASK := REDACTED + "@"

  /** s.indexOf(c, start) for one character. */
  function IndexOfChar(s: string, c: char, start: nat): (i: int)
    requires start <= |s|
    ensures i == -1 ==> forall k :: start <= k < |s| ==> s[k] != c
    ensures i != -1 ==> start <= i < |s| && s[i] == c && forall k :: start <= k < i ==> s[k] != c
    decreases |s| - start
  {
    if start == |s| then -1 else if s[start] == c then start else IndexOfChar(s, c, start + 1)
  }

  /** "://" stands at position i. */
  predicate SchemeAt(s: string, i: int) {
    0 <= i && i + 3 <= |s| && s[i] == ':' && s[i + 1] == '/' && s[i + 2] == '/'
  }

  /** s.indexOf("://", start). */
  function IndexOfScheme(s: string, start: nat): (i: int)
    requires start <= |s|
    ensures i == -1 ==> forall k :: start <= k ==> !SchemeAt(s, k)
    ensures i != -1 ==> start <= i && SchemeAt(s, i) && forall k :: start <= k < i ==> !SchemeAt(s, k)
    decreases |s| - start
  {
    if start == |s| then -1 else if SchemeAt(s, start) then start else IndexOfScheme(s, start + 1)
  }

  // ----- what is to be redacted --------------------------------------------------------------

  /** The text from i to its first '@', at a, is a user and password: a ':' inside and no '/'. */
  predicate IsCredentials(s: string, i: int, a: int) {
    && 0 <= i <= a < |s| && s[a] == '@'
    && (forall k :: i <= k < a ==> s[k] != '@' && s[k] != '/')
    && ':' in s[i..a]
  }

  /** Credentials begin at i: right after "://". */
  ghost predicate StartsCredentials(s: string, i: int) {
    SchemeAt(s, i - 3) && exists a :: IsCredentials(s, i, a)
  }

  /** Where the credentials that begin at i end. */
  ghost function CredentialsEnd(s: string, i: int): (a: int)
    requires StartsCredentials(s, i)
    ensures IsCredentials(s, i, a)
  {
    var a :| IsCredentials(s, i, a); a
  }

  lemma CredentialsEndUnique(s: string, i: int, a: int)
    requires SchemeAt(s, i - 3) && IsCredentials(s, i, a)
    ensures StartsCredentials(s, i) && CredentialsEnd(s, i) == a
  {
  }

  /** The text from position i on with every user:password replaced and every other character kept:
      a scan over all positions, none of them skipped. */
  ghost function Redaction(s: string, i: nat): string
    requires i <= |s|
    decreases |s| - i
  {
    if i == |s| then ""
    else if StartsCredentials(s, i) then
      REDACTED + s[CredentialsEnd(s, i)..CredentialsEnd(s, i) + 1] + Redaction(s, CredentialsEnd(s, i) + 1)
    else [s[i]] + Redaction(s, i + 1)
  }

  lemma KeepOne(s: string, i: nat)
    requires i < |s| && !StartsCredentials(s, i)
    ensures Redaction(s, i) == [s[i]] + Redaction(s, i + 1)
  {
    hide StartsCredentials;
  }

  lemma {:induction false} NothingToRedact(s: string, i: nat, j: nat)
    requires i <= j <= |s|
    requires forall p :: i <= p < j ==> !StartsCredentials(s, p)
    ensures Redaction(s, i) == s[i..j] + Redaction(s, j)
    decreases j - i
  {
    hide StartsCredentials, Redaction;
    if i < j {
      KeepOne(s, i);
      NothingToRedact(s, i + 1, j);
      assert s[i..j] == [s[i]] + s[i + 1..j];
    } else {
      assert s[i..j] == "";
    }
  }

  // ----- what the loop may skip --------------------------------------------------------------

  /** The search from j finds the scheme at `scheme`, and no credentials begin on its way there. */
  ghost predicate FindsScheme(s: string, j: nat, scheme: int) {
    && j <= scheme && SchemeAt(s, scheme)
    && (forall k :: j <= k < scheme ==> !SchemeAt(s, k))
    && NoneNear(s, j)
  }

  /** No credentials begin within three characters of j. */
  ghost predicate NoneNear(s: string, j: nat) {
    forall p :: j <= p < j + 3 ==> !StartsCredentials(s, p)
  }

  lemma SkipToScheme(s: string, j: nat, scheme: int)
    requires FindsScheme(s, j, scheme)
    ensures forall p :: j <= p < scheme + 3 ==> !StartsCredentials(s, p)
    ensures Redaction(s, j) == s[j..scheme + 3] + Redaction(s, scheme + 3)
  {
    hide Redaction;
    forall p | j <= p < scheme + 3
      ensures !StartsCredentials(s, p)
    {
      if p >= j + 3 {
        assert !SchemeAt(s, p - 3);
      }
    }
    NothingToRedact(s, j, scheme + 3);
  }

  lemma SkipRest(s: string, j: nat)
    requires j <= |s| && NoneNear(s, j) && forall k :: j <= k ==> !SchemeAt(s, k)
    ensures Redaction(s, j) == s[j..]
  {
    hide Redaction;
    forall p | j <= p < |s|
      ensures !StartsCredentials(s, p)
    {
      if p >= j + 3 {
        assert !SchemeAt(s, p - 3);
      }
    }
    NothingToRedact(s, j, |s|);
    assert Redaction(s, |s|) == "" by { EndOfText(s); }
    assert s[j..|s|] == s[j..];
  }

  lemma EndOfText(s: string)
    ensures Redaction(s, |s|) == ""
  {
  }

  lemma SkipWithoutAt(s: string, j: nat, scheme: int)
    requires FindsScheme(s, j, scheme) && forall k :: scheme + 3 <= k < |s| ==> s[k] != '@'
    ensures Redaction(s, j) == s[j..scheme + 3] + Redaction(s, scheme + 3)
    ensures NoneNear(s, scheme + 3)
  {
    hide Redaction;
    SkipToScheme(s, j, scheme);
  }

  lemma SkipBeforeSlash(s: string, j: nat, scheme: int, slash: int, at: int)
    requires FindsScheme(s, j, scheme) && scheme + 3 <= slash < at < |s| && s[slash] == '/'
    requires forall k :: scheme + 3 <= k < at ==> s[k] != '@'
    ensures Redaction(s, j) == s[j..scheme + 1] + Redaction(s, scheme + 1)
    ensures NoneNear(s, scheme + 1)
  {
    hide Redaction;
    SkipToScheme(s, j, scheme);
    NothingToRedact(s, j, scheme + 1);
    var start := scheme + 3;
    assert forall a :: IsCredentials(s, start, a) ==> a >= at && s[slash] != '/';
  }

  /** Between the scheme and a first '@' without a '/' no further scheme can begin. */
  lemma NoSchemeUpToAt(s: string, scheme: int, at: int)
    requires 0 <= scheme && SchemeAt(s, scheme) && scheme + 3 <= at < |s| && s[at] == '@'
    requires forall k :: scheme + 3 <= k < at ==> s[k] != '/'
    ensures forall p :: scheme + 3 < p < at + 4 ==> !StartsCredentials(s, p)
  {
    forall p | scheme + 3 < p < at + 4
      ensures !StartsCredentials(s, p)
    {
      if p <= at + 1 {
        assert s[p - 1] != '/';
      } else {
        assert p - 3 == at || p - 2 == at;
      }
    }
  }

  lemma SkipWithoutColon(s: string, j: nat, scheme: int, at: int)
    requires FindsScheme(s, j, scheme) && scheme + 3 <= at < |s| && s[at] == '@'
    requires forall k :: scheme + 3 <= k < at ==> s[k] != '/' && s[k] != '@' && s[k] != ':'
    ensures Redaction(s, j) == s[j..at + 1] + Redaction(s, at + 1)
    ensures NoneNear(s, at + 1)
  {
    hide Redaction;
    SkipToScheme(s, j, scheme);
    NoSchemeUpToAt(s, scheme, at);
    var start := scheme + 3;
    assert ':' !in s[start..at];
    assert forall a :: IsCredentials(s, start, a) ==> a == at;
    NothingToRedact(s, j, at + 1);
  }

  lemma ReplaceCredentials(s: string, j: nat, scheme: int, at: int)
    requires FindsScheme(s, j, scheme) && IsCredentials(s, scheme + 3, at)
    ensures Redaction(s, j) == s[j..scheme + 3] + MASK + Redaction(s, at + 1)
    ensures NoneNear(s, at + 1)
  {
    hide StartsCredentials, Redaction, MASK;
    SkipToScheme(s, j, scheme);
    NoSchemeUpToAt(s, scheme, at);
    CredentialsEndUnique(s, scheme + 3, at);
    MaskFirst(s, scheme + 3);
  }

  // ----- the loop ----------------------------------------------------------------------------

  /** The rewritten text up to searchIndex is final, and position j of the message comes next. */
  ghost predicate Done(message: string, redacted: string, j: nat, searchIndex: nat) {
    && j <= |message| && searchIndex <= |redacted|
    && redacted[searchIndex..] == message[j..]
    && redacted[..searchIndex] + Redaction(message, j) == Redaction(message, 0)
    && NoneNear(message, j)
  }

  /** Replaces the credentials of every URL in a message. The string may grow, but the part still to be
      searched shrinks. */
  method RedactBasicAuthInUrl(message: string) returns (redacted: string)
    ensures redacted == Redaction(message, 0)
  {
    hide StartsCredentials, Redaction, SchemeAt, NoneNear, FindsScheme, Done, IsCredentials, MASK;
    redacted := message;
    var searchIndex := 0;
    ghost var j := 0;  // the position in message that searchIndex stands for
    Start(message);
    while searchIndex < |redacted|
      invariant 0 <= searchIndex <= |redacted| && 0 <= j
      invariant Done(message, redacted, j, searchIndex)
      decreases |redacted| - searchIndex
    {
      var schemeIndex := IndexOfScheme(redacted, searchIndex);
      if schemeIndex == -1 {
        NoSchemeLeft(message, redacted, j, searchIndex);
        break;
      }
      var credentialsStart := schemeIndex + 3;
      ghost var shift := searchIndex - j;
      SchemeFound(message, redacted, j, searchIndex, schemeIndex);
      var atIndex := IndexOfChar(redacted, '@', credentialsStart);
      if atIndex == -1 {
        NoAtLeft(message, redacted, j, searchIndex, schemeIndex);
        searchIndex, j := credentialsStart, credentialsStart - shift;
        continue;
      }
      var slashIndex := IndexOfChar(redacted, '/', credentialsStart);
      if slashIndex != -1 && slashIndex < atIndex {
        SlashFirst(message, redacted, j, searchIndex, schemeIndex, slashIndex, atIndex);
        searchIndex, j := schemeIndex + 1, schemeIndex + 1 - shift;
        continue;
      }
      var colonIndex := IndexOfChar(redacted, ':', credentialsStart);
      if colonIndex == -1 || colonIndex > atIndex {
        NoColon(message, redacted, j, searchIndex, schemeIndex, atIndex);
        searchIndex, j := atIndex + 1, atIndex + 1 - shift;
        continue;
      }
      Rewrite(message, redacted, j, searchIndex, schemeIndex, colonIndex, atIndex);
      var tail := redacted[atIndex + 1..];
      redacted := redacted[..credentialsStart] + MASK + tail;
      searchIndex := credentialsStart + |MASK|;
      j := atIndex + 1 - shift;
    }
    NothingLeft(message, redacted, j, searchIndex);
  }

  lemma Start(message: string)
    ensures Done(message, message, 0, 0)
  {
    assert message[0..] == message && message[..0] == "";
  }

  lemma NothingLeft(message: string, redacted: string, j: nat, searchIndex: nat)
    requires Done(message, redacted, j, searchIndex)
    requires searchIndex < |redacted| ==> forall k :: j <= k ==> !SchemeAt(message, k)
    ensures redacted == Redaction(message, 0)
  {
    hide StartsCredentials, Redaction, SchemeAt;
    assert redacted == redacted[..searchIndex] + redacted[searchIndex..];
    if searchIndex < |redacted| {
      SkipRest(message, j);
    } else {
      assert |message[j..]| == |redacted[searchIndex..]| == 0;
      EndOfText(message);
    }
  }

  /** Positions of the text still to be searched, in the message and in the rewritten string. */
  lemma SameText(message: string, redacted: string, j: nat, searchIndex: nat)
    requires Done(message, redacted, j, searchIndex)
    ensures |redacted| - searchIndex == |message| - j
    ensures forall k :: j <= k < |message| ==> message[k] == redacted[k + (searchIndex - j)]
  {
    hide Redaction, NoneNear;
    forall k | j <= k < |message|
      ensures message[k] == redacted[k + (searchIndex - j)]
    {
      assert message[j..][k - j] == redacted[searchIndex..][k - j];
    }
  }

  lemma SchemeFound(message: string, redacted: string, j: nat, searchIndex: nat, scheme: int)
    requires Done(message, redacted, j, searchIndex)
    requires scheme >= searchIndex && SchemeAt(redacted, scheme)
    requires forall k :: searchIndex <= k < scheme ==> !SchemeAt(redacted, k)
    ensures FindsScheme(message, j, scheme - (searchIndex - j)) && scheme + 3 <= |redacted|
  {
    hide Redaction, NoneNear;
    SameText(message, redacted, j, searchIndex);
    var d := searchIndex - j;
    forall k | j <= k < scheme - d
      ensures !SchemeAt(message, k)
    {
      assert !SchemeAt(redacted, k + d);
    }
  }

  lemma NoSchemeLeft(message: string, redacted: string, j: nat, searchIndex: nat)
    requires Done(message, redacted, j, searchIndex)
    requires forall k :: searchIndex <= k ==> !SchemeAt(redacted, k)
    ensures forall k :: j <= k ==> !SchemeAt(message, k)
  {
    hide Redaction, NoneNear;
    SameText(message, redacted, j, searchIndex);
    forall k | j <= k
      ensures !SchemeAt(message, k)
    {
      assert !SchemeAt(redacted, k + (searchIndex - j));
    }
  }

  /** The loop keeps the text up to `next`. */
  lemma Advance(message: string, redacted: string, j: nat, searchIndex: nat, next: nat)
    requires Done(message, redacted, j, searchIndex) && searchIndex <= next <= |redacted|
    requires next - (searchIndex - j) <= |message|
    requires var m := next - (searchIndex - j);
             Redaction(message, j) == message[j..m] + Redaction(message, m) && NoneNear(message, m)
    ensures Done(message, redacted, next - (searchIndex - j), next)
  {
    hide Redaction, NoneNear;
    var m := next - (searchIndex - j);
    assert redacted[searchIndex..][next - searchIndex..] == message[j..][next - searchIndex..];
    assert redacted[next..] == message[m..];
    assert redacted[..next] == redacted[..searchIndex] + redacted[searchIndex..][..next - searchIndex];
    assert message[j..m] == message[j..][..m - j];
  }

  lemma NoAtLeft(message: string, redacted: string, j: nat, searchIndex: nat, scheme: nat)
    requires Done(message, redacted, j, searchIndex) && searchIndex <= scheme && scheme + 3 <= |redacted|
    requires FindsScheme(message, j, scheme - (searchIndex - j))
    requires forall k :: scheme + 3 <= k < |redacted| ==> redacted[k] != '@'
    ensures Done(message, redacted, scheme + 3 - (searchIndex - j), scheme + 3)
  {
    hide Redaction, NoneNear, FindsScheme;
    SameText(message, redacted, j, searchIndex);
    SkipWithoutAt(message, j, scheme - (searchIndex - j));
    Advance(message, redacted, j, searchIndex, scheme + 3);
  }

  lemma SlashFirst(message: string, redacted: string, j: nat, searchIndex: nat, scheme: nat, slash: nat, at: nat)
    requires Done(message, redacted, j, searchIndex) && searchIndex <= scheme
    requires FindsScheme(message, j, scheme - (searchIndex - j))
    requires scheme + 3 <= slash < at < |redacted| && redacted[slash] == '/'
    requires forall k :: scheme + 3 <= k < at ==> redacted[k] != '@'
    ensures Done(message, redacted, scheme + 1 - (searchIndex - j), scheme + 1)
  {
    hide Redaction, NoneNear, FindsScheme;
    var shift := searchIndex - j;
    SameText(message, redacted, j, searchIndex);
    SkipBeforeSlash(message, j, scheme - shift, slash - shift, at - shift);
    Advance(message, redacted, j, searchIndex, scheme + 1);
  }

  lemma NoColon(message: string, redacted: string, j: nat, searchIndex: nat, scheme: nat, at: nat)
    requires Done(message, redacted, j, searchIndex) && searchIndex <= scheme
    requires FindsScheme(message, j, scheme - (searchIndex - j))
    requires scheme + 3 <= at < |redacted| && redacted[at] == '@'
    requires forall k :: scheme + 3 <= k < at ==> redacted[k] != '/' && redacted[k] != '@' && redacted[k] != ':'
    ensures Done(message, redacted, at + 1 - (searchIndex - j), at + 1)
  {
    hide Redaction, NoneNear, FindsScheme;
    var shift := searchIndex - j;
    SameText(message, redacted, j, searchIndex);
    SkipWithoutColon(message, j, scheme - shift, at - shift);
    Advance(message, redacted, j, searchIndex, at + 1);
  }

  lemma CredentialsFound(message: string, redacted: string, j: nat, searchIndex: nat, start: nat, colon: nat, at: nat)
    requires Done(message, redacted, j, searchIndex)
    requires searchIndex <= start <= colon < at < |redacted| && redacted[colon] == ':' && redacted[at] == '@'
    requires forall k :: start <= k < at ==> redacted[k] != '@' && redacted[k] != '/'
    ensures IsCredentials(message, start - (searchIndex - j), at - (searchIndex - j))
  {
    hide Redaction, NoneNear;
    var shift := searchIndex - j;
    SameText(message, redacted, j, searchIndex);
    assert message[start - shift..at - shift][colon - start] == ':';
  }

  /** The loop replaces the credentials between a scheme and an '@'. */
  lemma Rewrite(message: string, redacted: string, j: nat, searchIndex: nat, scheme: nat, colon: nat, at: nat)
    requires Done(message, redacted, j, searchIndex) && searchIndex <= scheme
    requires FindsScheme(message, j, scheme - (searchIndex - j))
    requires scheme + 3 <= colon < at < |redacted| && redacted[colon] == ':' && redacted[at] == '@'
    requires forall k :: scheme + 3 <= k < at ==> redacted[k] != '@' && redacted[k] != '/'
    ensures var start := scheme + 3;
            Done(message, redacted[..start] + MASK + redacted[at + 1..],
                 at + 1 - (searchIndex - j), start + |MASK|)
  {
    hide Redaction, NoneNear, FindsScheme, IsCredentials, MASK;
    var d := searchIndex - j;
    var start, m := scheme + 3, scheme + 3 - d;
    CredentialsFound(message, redacted, j, searchIndex, start, colon, at);
    ReplaceCredentials(message, j, scheme - d, at - d);
    var after := redacted[..start] + MASK + redacted[at + 1..];
    var next := start + |MASK|;
    assert after[next..] == redacted[at + 1..];
    assert redacted[searchIndex..][at + 1 - searchIndex..] == message[j..][at + 1 - searchIndex..];
    assert after[..next] == redacted[..start] + MASK;
    assert redacted[..start] == redacted[..searchIndex] + redacted[searchIndex..][..start - searchIndex];
    assert message[j..m] == message[j..][..m - j];
  }


  // ----- what the result guarantees ----------------------------------------------------------

  /** A scheme in the output was copied from the message, and what follows it is the redaction of what
      followed it there. */
  lemma {:induction false} SchemeIsCopied(s: string, i: nat, o: string, q: nat, scheme: nat) returns (at: nat)
    requires i <= |s| && q <= scheme && q <= |o| && o[q..] == Redaction(s, i) && SchemeAt(o, scheme)
    ensures at <= |s| && SchemeAt(s, at - 3) && o[scheme + 3..] == Redaction(s, at)
    decreases |s| - i
  {
    hide StartsCredentials, Redaction, MASK;
    if StartsCredentials(s, i) {
      var a := CredentialsEnd(s, i);
      JumpOverMask(s, i, o, q, scheme);
      at := SchemeIsCopied(s, a + 1, o, q + |MASK|, scheme);
    } else {
      StepOverCopy(s, i, o, q);
      if q < scheme {
        at := SchemeIsCopied(s, i + 1, o, q + 1, scheme);
      } else {
        CopySlash(s, i + 1, o, q + 1);
        CopySlash(s, i + 2, o, q + 2);
        at := i + 3;
      }
    }
  }

  lemma JumpOverMask(s: string, i: nat, o: string, q: nat, scheme: nat)
    requires i <= |s| && q <= scheme && q <= |o| && o[q..] == Redaction(s, i) && SchemeAt(o, scheme)
    requires StartsCredentials(s, i)
    ensures var a, next := CredentialsEnd(s, i), q + |MASK|;
            i < a + 1 <= |s| && next <= |o| && o[next..] == Redaction(s, a + 1) && next <= scheme
  {
    hide StartsCredentials, Redaction, MASK, SchemeAt;
    MaskFirst(s, i);
    var next := q + |MASK|;
    assert |o[q..]| == |o| - q >= |MASK|;
    assert o[q..][..|MASK|] == MASK && o[q..next] == o[q..][..|MASK|];
    assert o[next..] == o[q..][|MASK|..];
    if scheme < next {
      MaskHasNoScheme(o, q, scheme);
    }
  }

  lemma StepOverCopy(s: string, i: nat, o: string, q: nat)
    requires i <= |s| && q < |o| && o[q..] == Redaction(s, i) && !StartsCredentials(s, i)
    ensures i < |s| && o[q] == s[i] && o[q + 1..] == Redaction(s, i + 1)
  {
    hide StartsCredentials, Redaction;
    assert |o[q..]| > 0;
    if i == |s| { EndOfText(s); } else { KeepOne(s, i); }
    assert o[q] == o[q..][0];
    assert o[q + 1..] == o[q..][1..];
  }

  lemma MaskFirst(s: string, i: nat)
    requires i <= |s| && StartsCredentials(s, i)
    ensures i < |s| && Redaction(s, i) == MASK + Redaction(s, CredentialsEnd(s, i) + 1)
  {
    hide StartsCredentials, REDACTED;
    var a := CredentialsEnd(s, i);
    assert s[a..a + 1] == "@";
    assert Redaction(s, i) == (REDACTED + s[a..a + 1]) + Redaction(s, a + 1);
  }

  lemma MaskHasNoScheme(o: string, q: nat, scheme: nat)
    requires q + |MASK| <= |o| && o[q..q + |MASK|] == MASK && q <= scheme < q + |MASK|
    ensures !SchemeAt(o, scheme)
  {
    var k := scheme - q;
    assert o[scheme] == MASK[k];
    if MASK[k] == ':' {
      assert k == 10;
      assert o[scheme + 1] == MASK[k + 1];
    }
  }

  lemma NotMaskHead(s: string, i: nat)
    requires i <= |s| && Redaction(s, i) != [] && Redaction(s, i)[0] != '['
    ensures !StartsCredentials(s, i)
  {
    hide Redaction, StartsCredentials;
    if StartsCredentials(s, i) { MaskFirst(s, i); }
  }

  /** A '/' at the head of a redaction was copied. */
  lemma CopySlash(s: string, i: nat, o: string, q: nat)
    requires i <= |s| && q < |o| && o[q] == '/' && o[q..] == Redaction(s, i)
    ensures i < |s| && s[i] == '/' && o[q + 1..] == Redaction(s, i + 1)
  {
    hide StartsCredentials, Redaction;
    assert o[q..][0] == '/';
    NotMaskHead(s, i);
    if i == |s| { EndOfText(s); } else { KeepOne(s, i); }
    assert o[q + 1..] == o[q..][1..];
  }

  /** The first '/' at or after i, or the end. */
  function SlashOrEnd(s: string, i: nat): (e: nat)
    requires i <= |s|
    ensures i <= e <= |s| && (e < |s| ==> s[e] == '/') && forall k :: i <= k < e ==> s[k] != '/'
    decreases |s| - i
  {
    if i == |s| || s[i] == '/' then i else SlashOrEnd(s, i + 1)
  }

  /** Credentials at the head of a redaction are either the mask or credentials of the message. */
  lemma HeadCredentials(s: string, i: nat, b: nat)
    requires i <= |s| && SchemeAt(s, i - 3) && IsCredentials(Redaction(s, i), 0, b)
    ensures b == |REDACTED| && Redaction(s, i)[..b] == REDACTED
  {
    hide StartsCredentials, Redaction;
    var w := Redaction(s, i);
    if StartsCredentials(s, i) {
      MaskFirst(s, i);
      assert w[|REDACTED|] == MASK[|REDACTED|] == '@';
      assert forall k :: 0 <= k < |REDACTED| ==> w[k] == MASK[k];
      assert w[..|REDACTED|] == MASK[..|REDACTED|] == REDACTED;
      assert forall k :: 0 <= k < |REDACTED| ==> MASK[k] != '@';
    } else {
      NoHeadCredentials(s, i, b);
    }
  }

  lemma NoHeadCredentials(s: string, i: nat, b: nat)
    requires i <= |s| && SchemeAt(s, i - 3) && !StartsCredentials(s, i)
    ensures !IsCredentials(Redaction(s, i), 0, b)
  {
    hide Redaction;
    var e := SlashOrEnd(s, i);
    forall p | i <= p <= e
      ensures !StartsCredentials(s, p)
    {
      if p > i { assert s[p - 1] != '/'; }
    }
    NothingToRedact(s, i, e);
    var w := Redaction(s, i);
    assert w == s[i..e] + Redaction(s, e);
    if e == |s| {
      EndOfText(s);
    } else {
      KeepOne(s, e);
      assert w[e - i] == '/';
    }
    SameCredentials(s, i, e, w, b);
  }

  lemma SameCredentials(s: string, i: nat, e: nat, w: string, b: nat)
    requires i <= e <= |s| && SchemeAt(s, i - 3) && !StartsCredentials(s, i)
    requires |w| >= e - i && w[..e - i] == s[i..e]
    requires if e == |s| then |w| == e - i else |w| > e - i && w[e - i] == '/'
    ensures !IsCredentials(w, 0, b)
  {
    hide Redaction;
    if b < e - i {
      assert forall k :: 0 <= k < e - i ==> w[k] == w[..e - i][k] == s[i + k];
      assert w[0..b] == s[i..i + b];
      assert IsCredentials(w, 0, b) ==> IsCredentials(s, i, i + b) by {
        assert forall k :: i <= k < i + b ==> s[k] == w[k - i];
      }
    }
  }

  /** In the result every "://" that is followed by a first '@' with a ':' and no '/' between them has
      exactly "[REDACTED]:[REDACTED]" there. */
  lemma ResultIsClean(message: string, q: int, b: int)
    requires var o := Redaction(message, 0); SchemeAt(o, q - 3) && IsCredentials(o, q, b)
    ensures Redaction(message, 0)[q..b] == REDACTED
  {
    hide StartsCredentials, Redaction;
    var o := Redaction(message, 0);
    assert o[0..] == o;
    var i := SchemeIsCopied(message, 0, o, 0, q - 3);
    var w := o[q..];
    assert w == Redaction(message, i);
    assert forall k :: 0 <= k < b - q ==> w[k] == o[q + k];
    assert w[b - q] == o[b] && w[0..b - q] == o[q..b];
    HeadCredentials(message, i, b - q);
    assert o[q..b] == w[..b - q];
  }

  lemma {:induction false} CleanIsFixed(o: string, i: nat)
    requires i <= |o|
    requires forall q, b :: i <= q && SchemeAt(o, q - 3) && IsCredentials(o, q, b) ==> o[q..b] == REDACTED
    ensures Redaction(o, i) == o[i..]
    decreases |o| - i
  {
    hide SchemeAt, IsCredentials;
    if i < |o| {
      if StartsCredentials(o, i) {
        var b := CredentialsEnd(o, i);
        EndInside(o, i, b);
        CleanIsFixed(o, b + 1);
        assert o[i..] == o[i..b] + o[b..b + 1] + o[b + 1..];
      } else {
        CleanIsFixed(o, i + 1);
        assert o[i..] == [o[i]] + o[i + 1..];
      }
    }
  }

  lemma EndInside(o: string, i: nat, b: int)
    requires IsCredentials(o, i, b)
    ensures i <= b < |o|
  {
  }

  /** Redacting twice is redacting once. */
  lemma RedactionIdempotent(message: string)
    ensures Redaction(Redaction(message, 0), 0) == Redaction(message, 0)
  {
    hide SchemeAt, Redaction;
    var o := Redaction(message, 0);
    forall q, b | 0 <= q && SchemeAt(o, q - 3) && IsCredentials(o, q, b)
      ensures o[q..b] == REDACTED
    {
      ResultIsClean(message, q, b);
    }
    CleanIsFixed(o, 0);
    assert o[0..] == o;
  }

  // ----- what is kept ------------------------------------------------------------------------

  /** A text in pieces: what is kept, and what is a user and password. */
  datatype Piece = Kept(text: string) | Secret(text: string)

  function Original(pieces: seq<Piece>): string {
    if pieces == [] then "" else pieces[0].text + Original(pieces[1..])
  }

  function Masked(pieces: seq<Piece>): string {
    if pieces == [] then ""
    else (if pieces[0].Secret? then "[REDACTED]:[REDACTED]" else pieces[0].text) + Masked(pieces[1..])
  }

  predicate IsSecret(text: string) {
    ':' in text && '/' !in text && '@' !in text
  }

  /** The message is kept but for pieces with a ':' and no '/' or '@', each of which becomes the mask where it
      stands: nothing else is lost, added or moved. */
  lemma {:induction false} RestIsKept(message: string, i: nat) returns (pieces: seq<Piece>)
    requires i <= |message|
    ensures Original(pieces) == message[i..] && Masked(pieces) == Redaction(message, i)
    ensures forall k :: 0 <= k < |pieces| && pieces[k].Secret? ==> IsSecret(pieces[k].text)
    decreases |message| - i
  {
    hide StartsCredentials, Redaction, Original, Masked, IsSecret, REDACTED;
    if i == |message| {
      pieces := [];
      EndOfText(message);
      NoPieces();
    } else if StartsCredentials(message, i) {
      var a := CredentialsEnd(message, i);
      EndInside(message, i, a);
      MaskAndAt(message, i);
      SecretPiece(message, i, a);
      var rest := RestIsKept(message, a + 1);
      var at := message[a..a + 1];
      pieces := [Secret(message[i..a])] + ([Kept(at)] + rest);
      OnePiece(Secret(message[i..a]), [Kept(at)] + rest);
      OnePiece(Kept(at), rest);
      assert message[i..] == message[i..a] + (at + message[a + 1..]);
    } else {
      var rest := RestIsKept(message, i + 1);
      pieces := [Kept([message[i]])] + rest;
      OnePiece(Kept([message[i]]), rest);
      KeepOne(message, i);
      assert message[i..] == [message[i]] + message[i + 1..];
    }
  }

  lemma NoPieces()
    ensures Original([]) == Masked([]) == ""
  {
  }

  lemma OnePiece(piece: Piece, pieces: seq<Piece>)
    ensures Original([piece] + pieces) == piece.text + Original(pieces)
    ensures Masked([piece] + pieces) == (if piece.Secret? then "[REDACTED]:[REDACTED]" else piece.text) + Masked(pieces)
  {
    assert ([piece] + pieces)[1..] == pieces;
  }

  lemma MaskAndAt(s: string, i: nat)
    requires i <= |s| && StartsCredentials(s, i)
    ensures var a := CredentialsEnd(s, i);
            i <= a < |s| && Redaction(s, i) == "[REDACTED]:[REDACTED]" + (s[a..a + 1] + Redaction(s, a + 1))
  {
    hide StartsCredentials, Redaction, MASK, REDACTED;
    var a := CredentialsEnd(s, i);
    MaskFirst(s, i);
    MaskText();
    assert s[a..a + 1] == "@";
    assert ("[REDACTED]:[REDACTED]" + "@") + Redaction(s, a + 1) == "[REDACTED]:[REDACTED]" + ("@" + Redaction(s, a + 1));
  }

  lemma MaskText()
    ensures REDACTED == "[REDACTED]:[REDACTED]" && MASK == "[REDACTED]:[REDACTED]" + "@"
  {
  }

  lemma SecretPiece(s: string, i: nat, a: int)
    requires IsCredentials(s, i, a)
    ensures i <= a < |s| && IsSecret(s[i..a])
  {
  }

  lemma TextIsKept(message: string)
    ensures exists pieces: seq<Piece> :: Original(pieces) == message && Masked(pieces) == Redaction(message, 0)
                             && forall k :: 0 <= k < |pieces| && pieces[k].Secret? ==> IsSecret(pieces[k].text)
  {
    hide Redaction, IsSecret;
    var pieces := RestIsKept(message, 0);
    assert message[0..] == message;
  }

  // ----- every '@' after a scheme ------------------------------------------------------------

  /** From q to the '@' at a there is a ':' and no '/': a user and password, were the '@' the last of them. */
  predicate LooksSecret(s: string, q: int, a: int) {
    0 <= q <= a < |s| && s[a] == '@' && (forall k :: q <= k < a ==> s[k] != '/') && ':' in s[q..a]
  }

  /** The full promise: whatever stands between a "://" and any later '@', with a ':' and no '/', is the mask. */
  ghost predicate EverySecretMasked(o: string) {
    forall q, a :: SchemeAt(o, q - 3) && LooksSecret(o, q, a) ==> o[q..a] == REDACTED
  }

  /** After a "://" comes an '@', and a second one that looks secret. */
  ghost predicate HasSecondAt(s: string, q: int, a: int, b: int) {
    SchemeAt(s, q - 3) && q <= a < b && LooksSecret(s, q, b) && s[a] == '@'
  }

  /** Where no credentials begin, the text is copied up to and including the next '/'. */
  lemma CopiedToSlash(s: string, i: nat)
    requires i <= |s| && !StartsCredentials(s, i)
    ensures var e, w := SlashOrEnd(s, i), Redaction(s, i);
            |w| >= e - i && w[..e - i] == s[i..e] && (if e == |s| then |w| == e - i else |w| > e - i && w[e - i] == '/')
  {
    hide Redaction;
    var e := SlashOrEnd(s, i);
    forall p | i <= p <= e
      ensures !StartsCredentials(s, p)
    {
      if p > i { assert s[p - 1] != '/'; }
    }
    NothingToRedact(s, i, e);
    if e == |s| {
      EndOfText(s);
    } else {
      KeepOne(s, e);
      assert Redaction(s, i)[e - i] == '/';
    }
  }

  /** The same seen from the text: up to any position before the next '/' both read alike. */
  lemma CopiedAlike(s: string, i: nat, n: nat)
    requires i <= |s| && !StartsCredentials(s, i)
    requires (i + n < |s| && forall k :: i <= k <= i + n ==> s[k] != '/')
             || (n < |Redaction(s, i)| && forall k :: 0 <= k <= n ==> Redaction(s, i)[k] != '/')
    ensures i + n < |s| && n < |Redaction(s, i)| && Redaction(s, i)[..n + 1] == s[i..i + n + 1]
  {
    hide Redaction, StartsCredentials;
    CopiedToSlash(s, i);
    var e, w := SlashOrEnd(s, i), Redaction(s, i);
    assert n < e - i;
    assert w[..n + 1] == w[..e - i][..n + 1] && s[i..i + n + 1] == s[i..e][..n + 1];
  }

  /** Right after credentials none begin. */
  lemma NoneAfterCredentials(s: string, i: nat)
    requires StartsCredentials(s, i)
    ensures CredentialsEnd(s, i) + 1 <= |s| && !StartsCredentials(s, CredentialsEnd(s, i) + 1)
  {
  }

  /** A scheme of the message is kept, and what follows it in the result is the redaction of what follows it. */
  lemma {:induction false} SchemeIsKept(s: string, i: nat, at: nat) returns (q: nat)
    requires i <= at - 3 && SchemeAt(s, at - 3)
    ensures q <= |Redaction(s, i)| && SchemeAt(Redaction(s, i), q - 3) && Redaction(s, i)[q..] == Redaction(s, at)
    decreases |s| - i
  {
    hide Redaction, StartsCredentials, CredentialsEnd, MASK;
    SchemeOutside(s, i, at);
    if StartsCredentials(s, i) {
      var e := CredentialsEnd(s, i);
      MaskFirst(s, i);
      q := SchemeIsKept(s, e + 1, at);
      KeptBehind(MASK, Redaction(s, e + 1), Redaction(s, at), q);
      q := |MASK| + q;
    } else if i < at - 3 {
      KeepOne(s, i);
      q := SchemeIsKept(s, i + 1, at);
      KeptBehind([s[i]], Redaction(s, i + 1), Redaction(s, at), q);
      q := 1 + q;
    } else {
      KeepOne(s, i);
      KeepOne(s, i + 1);
      KeepOne(s, i + 2);
      q := 3;
    }
  }

  lemma KeptBehind(head: string, w: string, rest: string, q: nat)
    requires q <= |w| && SchemeAt(w, q - 3) && w[q..] == rest
    ensures |head| + q <= |head + w| && SchemeAt(head + w, |head| + q - 3) && (head + w)[|head| + q..] == rest
  {
  }

  /** No scheme begins inside credentials, and no credentials inside a scheme. */
  lemma SchemeOutside(s: string, i: nat, at: nat)
    requires i <= at - 3 && SchemeAt(s, at - 3)
    ensures StartsCredentials(s, i) ==> i < CredentialsEnd(s, i) + 1 <= at - 3
    ensures i == at - 3 ==> forall p :: i <= p < i + 3 ==> !StartsCredentials(s, p)
  {
    assert s[at - 2] == '/' && s[at - 1] == '/' && s[at - 3] == ':';
    if StartsCredentials(s, i) {
      var e := CredentialsEnd(s, i);
      assert s[e] == '@' && forall k :: i <= k < e ==> s[k] != '/';
    }
    forall p | at - 3 <= p < at
      ensures !StartsCredentials(s, p)
    {
      assert forall a :: IsCredentials(s, p, a) ==> a >= p && s[p] != '@';
      assert p == at - 3 ==> s[p + 1] == '/' && s[p] == ':';
    }
  }

  /** A second '@' survives right behind the mask, or behind the first '@' that was not redacted. */
  lemma SecondAtLeaks(s: string, i: nat, a: nat, b: nat) returns (d: nat)
    requires HasSecondAt(s, i, a, b)
    ensures LooksSecret(Redaction(s, i), 0, d) && Redaction(s, i)[..d] != REDACTED
  {
    hide Redaction, StartsCredentials, CredentialsEnd, MASK;
    var w := Redaction(s, i);
    if StartsCredentials(s, i) {
      var e := CredentialsEnd(s, i);
      FirstAt(s, i, a, e);
      MaskFirst(s, i);
      NoneAfterCredentials(s, i);
      var n := b - e - 1;
      CopiedAlike(s, e + 1, n);
      d := |MASK| + n;
      BehindMask(s, e + 1, n, w, d);
    } else {
      d := b - i;
      CopiedAlike(s, i, d);
      CopiedSecretShows(s, i, a, b, w);
    }
  }

  lemma CopiedSecretShows(s: string, i: nat, a: nat, b: nat, w: string)
    requires i <= a < b && LooksSecret(s, i, b) && s[a] == '@'
    requires b - i < |w| && w[..b - i + 1] == s[i..b + 1]
    ensures LooksSecret(w, 0, b - i) && w[..b - i] != REDACTED
  {
    var d := b - i;
    var c := w[..d + 1];
    assert forall k :: 0 <= k <= d ==> w[k] == c[k] && c[k] == s[i + k];
    assert w[0..d] == s[i..b];
    assert w[..d][a - i] == '@';
    MaskHasNoAt();
  }

  lemma FirstAt(s: string, i: nat, a: nat, e: nat)
    requires IsCredentials(s, i, e) && i <= a < |s| && s[a] == '@'
    ensures i <= e <= a
  {
  }

  lemma MaskHasNoAt()
    ensures forall k :: 0 <= k < |REDACTED| ==> REDACTED[k] != '@' && REDACTED[k] != '/'
    ensures REDACTED[10] == ':' && |MASK| == |REDACTED| + 1
    ensures forall k :: 0 <= k < |MASK| ==> MASK[k] != '/'
  {
  }

  lemma BehindMask(s: string, j: nat, n: nat, w: string, d: nat)
    requires j <= |s| && j + n < |s| && s[j + n] == '@' && d == |MASK| + n
    requires forall k :: j <= k <= j + n ==> s[k] != '/'
    requires w == MASK + Redaction(s, j) && n < |Redaction(s, j)| && Redaction(s, j)[..n + 1] == s[j..j + n + 1]
    ensures LooksSecret(w, 0, d) && w[..d] != REDACTED
  {
    hide Redaction;
    MaskHasNoAt();
    var r := Redaction(s, j);
    assert forall k :: 0 <= k <= n ==> r[k] == r[..n + 1][k] == s[j + k];
    assert w[d] == r[n];
    forall k | 0 <= k < d
      ensures w[k] != '/'
    {
      assert w[k] == if k < |MASK| then MASK[k] else r[k - |MASK|];
    }
    assert w[0..d][10] == MASK[10] == ':';
    assert |w[..d]| > |REDACTED|;
  }

  /** A secret the result still shows comes from a second '@' of the message. */
  lemma ShownSecretHasSecondAt(s: string, i: nat, d: nat) returns (a: nat, b: nat)
    requires i <= |s| && SchemeAt(s, i - 3)
    requires LooksSecret(Redaction(s, i), 0, d) && Redaction(s, i)[..d] != REDACTED
    ensures HasSecondAt(s, i, a, b)
  {
    hide Redaction, StartsCredentials, CredentialsEnd, MASK;
    var w := Redaction(s, i);
    if StartsCredentials(s, i) {
      a := CredentialsEnd(s, i);
      MaskFirst(s, i);
      NoneAfterCredentials(s, i);
      SecretBehindMask(s, a + 1, w, d);
      var n := d - |MASK|;
      CopiedAlike(s, a + 1, n);
      b := a + 1 + n;
      SecondAfterCredentials(s, i, a, b, Redaction(s, a + 1), n);
    } else {
      CopiedAlike(s, i, d);
      b := i + d;
      var c := w[..d + 1];
      assert c == s[i..b + 1];
      assert forall k :: 0 <= k <= d ==> c[k] == w[k] && c[k] == s[i + k];
      assert forall k :: i <= k <= b ==> s[k] == w[k - i];
      assert s[i..b] == w[0..d];
      a := AtBefore(s, i, b);
    }
  }

  /** Where no credentials begin although a ':' and no '/' come before an '@', there is an earlier '@'. */
  lemma AtBefore(s: string, i: nat, b: nat) returns (a: nat)
    requires SchemeAt(s, i - 3) && LooksSecret(s, i, b) && !StartsCredentials(s, i)
    ensures HasSecondAt(s, i, a, b)
  {
    assert !IsCredentials(s, i, b);
    a :| i <= a < b && s[a] == '@';
  }

  lemma SecretBehindMask(s: string, j: nat, w: string, d: nat)
    requires j <= |s| && w == MASK + Redaction(s, j) && LooksSecret(w, 0, d) && w[..d] != REDACTED
    ensures d >= |MASK| && d - |MASK| < |Redaction(s, j)| && Redaction(s, j)[d - |MASK|] == '@'
    ensures forall k :: 0 <= k <= d - |MASK| ==> Redaction(s, j)[k] != '/'
  {
    hide Redaction;
    MaskHasNoAt();
    if d >= |MASK| {
      var r := Redaction(s, j);
      assert forall k :: 0 <= k <= d - |MASK| ==> r[k] == w[k + |MASK|];
    }
  }

  lemma SecondAfterCredentials(s: string, i: nat, a: nat, b: nat, r: string, n: nat)
    requires SchemeAt(s, i - 3) && IsCredentials(s, i, a) && b == a + 1 + n < |s|
    requires n < |r| && r[..n + 1] == s[a + 1..b + 1]
    requires r[n] == '@' && forall k :: 0 <= k <= n ==> r[k] != '/'
    ensures HasSecondAt(s, i, a, b)
  {
    assert forall k :: 0 <= k <= n ==> r[..n + 1][k] == r[k] && s[a + 1..b + 1][k] == s[a + 1 + k];
    assert forall k :: a + 1 <= k <= b ==> s[k] == r[k - a - 1];
    var c :| 0 <= c < |s[i..a]| && s[i..a][c] == ':';
    assert s[i..b][c] == ':';
  }

  /** The full promise is kept exactly for the messages without a "://" that two '@' follow, with no '/' before
      the second and a ':' before it. */
  lemma EverySecretMaskedExactly(message: string)
    ensures EverySecretMasked(Redaction(message, 0)) <==> !exists q, a, b :: HasSecondAt(message, q, a, b)
  {
    hide Redaction, StartsCredentials, SchemeAt;
    var o := Redaction(message, 0);
    assert o[0..] == o;
    if q, a, b :| HasSecondAt(message, q, a, b) {
      LeakIsShown(message, q, a, b);
    }
    forall q, d | SchemeAt(o, q - 3) && LooksSecret(o, q, d) && o[q..d] != REDACTED
      ensures exists i, a, b :: HasSecondAt(message, i, a, b)
    {
      ShownIsLeak(message, q, d);
    }
  }

  lemma LeakIsShown(message: string, q: int, a: int, b: int)
    requires HasSecondAt(message, q, a, b)
    ensures !EverySecretMasked(Redaction(message, 0))
  {
    hide Redaction, StartsCredentials;
    var o := Redaction(message, 0);
    var at := SchemeIsKept(message, 0, q);
    var d := SecondAtLeaks(message, q, a, b);
    var w := Redaction(message, q);
    assert o[at..] == w;
    assert forall k :: 0 <= k <= d ==> o[at + k] == w[k];
    assert o[at..at + d] == w[0..d] == w[..d];
    assert forall k :: at <= k < at + d ==> o[k] == w[k - at];
    assert LooksSecret(o, at, at + d);
  }

  lemma ShownIsLeak(message: string, q: int, d: int)
    requires var o := Redaction(message, 0); SchemeAt(o, q - 3) && LooksSecret(o, q, d) && o[q..d] != REDACTED
    ensures exists i, a, b :: HasSecondAt(message, i, a, b)
  {
    hide Redaction, StartsCredentials;
    var o := Redaction(message, 0);
    assert o[0..] == o;
    var i := SchemeIsCopied(message, 0, o, 0, q - 3);
    var w := Redaction(message, i);
    assert w == o[q..];
    assert forall k :: 0 <= k <= d - q ==> w[k] == o[q + k];
    assert w[0..d - q] == o[q..d] == w[..d - q];
    var a, b := ShownSecretHasSecondAt(message, i, d - q);
  }

  const SPLIT_PASSWORD := "redis://user:p@ss@host"
  const SPLIT_USER := "redis://me@x:pw@host"

  /** A password with an '@' in it is masked up to that '@' only, and after a user with an '@' in it the
      password is not masked at all. */
  lemma SecondAtExamples()
    ensures Redaction(SPLIT_PASSWORD, 0) == "redis://" + MASK + "ss@host"
    ensures Redaction(SPLIT_USER, 0) == SPLIT_USER
  {
    hide Redaction;
    SplitPassword();
    SplitUser();
  }

  lemma OnlyScheme(s: string)
    requires |s| >= 8 && s[..8] == "redis://"
    requires forall k :: 8 <= k < |s| ==> s[k] != '/'
    ensures forall p :: 0 <= p <= |s| && p != 8 ==> !StartsCredentials(s, p)
  {
    assert forall k :: 0 <= k < 8 ==> s[k] == "redis://"[k];
    forall k | 0 <= k && k != 5
      ensures !SchemeAt(s, k)
    {
      if k > 5 && k + 3 <= |s| { assert s[k + 2] != '/'; }
    }
    forall p | 0 <= p <= |s| && p != 8
      ensures !StartsCredentials(s, p)
    {
      assert !SchemeAt(s, p - 3);
    }
  }

  lemma SplitPassword()
    ensures Redaction(SPLIT_PASSWORD, 0) == "redis://" + MASK + "ss@host"
  {
    hide Redaction, StartsCredentials, CredentialsEnd, IsCredentials, MASK, REDACTED;
    var s := SPLIT_PASSWORD;
    FirstPart();
    OnlyScheme(s);
    NothingToRedact(s, 0, 8);
    CredentialsEndUnique(s, 8, 14);
    MaskFirst(s, 8);
    NothingToRedact(s, 15, |s|);
    EndOfText(s);
    assert Redaction(s, 15) == s[15..|s|];
    assert Redaction(s, 0) == s[0..8] + (MASK + s[15..|s|]);
    SplitParts();
  }

  lemma FirstPart()
    ensures var s := SPLIT_PASSWORD; s[..8] == "redis://" && SchemeAt(s, 5) && IsCredentials(s, 8, 14)
  {
    assert SPLIT_PASSWORD[8..14][4] == ':';
  }

  lemma SplitParts()
    ensures SPLIT_PASSWORD[0..8] == "redis://" && SPLIT_PASSWORD[15..] == "ss@host"
  {
  }

  lemma SplitUser()
    ensures Redaction(SPLIT_USER, 0) == SPLIT_USER
  {
    hide Redaction;
    var s := SPLIT_USER;
    assert s[..8] == "redis://" && s[8..10] == "me";
    OnlyScheme(s);
    assert s[10] == '@';
    assert forall a :: IsCredentials(s, 8, a) ==> a == 10;
    NothingToRedact(s, 0, |s|);
    EndOfText(s);
    assert s[0..|s|] == s;
  }
}
