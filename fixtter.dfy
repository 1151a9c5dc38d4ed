/** cogs/fixtter/fixtter.py: rewriting twitter.com and x.com links to
    vxtwitter.com, and reposting a message whose links were rewritten. */
module Fixtter {
  import opened Text
  import opened Core
  import Usage

  // ---------------------------------------------------------------- the pattern

  /** [a-zA-Z0-9_] */
  predicate WordChar(c: char) {
    'a' <= c <= 'z' || 'A' <= c <= 'Z' || IsDigit(c) || c == '_'
  }

  /** Where the longest run of word characters starting at i ends. */
  function WordEnd(s: string, i: nat): (j: nat)
    requires i <= |s|
    ensures i <= j <= |s|
    ensures forall k | i <= k < j :: WordChar(s[k])
    ensures j == |s| || !WordChar(s[j])
    decreases |s| - i
  {
    if i < |s| && WordChar(s[i]) then WordEnd(s, i + 1) else i
  }

  /** Where the longest run of digits starting at i ends. */
  function DigitEnd(s: string, i: nat): (j: nat)
    requires i <= |s|
    ensures i <= j <= |s|
    ensures forall k | i <= k < j :: IsDigit(s[k])
    ensures j == |s| || !IsDigit(s[j])
    decreases |s| - i
  {
    if i < |s| && IsDigit(s[i]) then DigitEnd(s, i + 1) else i
  }

  /** t occurs in s at position i. */
  predicate StartsAt(s: string, i: nat, t: string) {
    i + |t| <= |s| && forall j | 0 <= j < |t| :: s[i + j] == t[j]
  }

  lemma StartsAtSlice(s: string, i: nat, t: string)
    requires StartsAt(s, i, t)
    ensures s[i..i + |t|] == t
  {
  }

  /** An occurrence of t1 + t2 is an occurrence of t1 followed by one of t2. */
  lemma StartsAtSplit(s: string, i: nat, t1: string, t2: string)
    requires StartsAt(s, i, t1 + t2)
    ensures StartsAt(s, i, t1) && StartsAt(s, i + |t1|, t2)
  {
    forall j | 0 <= j < |t1| ensures s[i + j] == t1[j] {
      assert (t1 + t2)[j] == t1[j];
    }
    forall j | 0 <= j < |t2| ensures s[i + |t1| + j] == t2[j] {
      assert (t1 + t2)[|t1| + j] == t2[j];
    }
  }

  lemma StartsAtMiddle(p: string, t: string, q: string)
    ensures StartsAt(p + t + q, |p|, t)
  {
    var s := p + t + q;
    forall j | 0 <= j < |t| ensures s[|p| + j] == t[j] { }
  }

  /** A match: where it ends, the user name (group 1) and the optional
      "/status/<digits>" part (group 2, empty when absent). */
  datatype Hit = Hit(end: nat, user: string, status: string)

  const TwitterHost := "twitter.com"
  const XHost := "x.com"
  const Https := "https://"
  const Http := "http://"
  const Www := "www."
  const StatusPrefix := "/status/"
  const VxHost := "vxtwitter.com"
  const VxPrefix := "https://vxtwitter.com/"

  /** What the rewriting lemmas need of a host name, as both twitter.com
      and x.com have it: no ":", and a first letter that starts neither
      "www." nor the replacement's "vxtwitter.com". */
  predicate Host(host: string) {
    |host| > 0 && 'a' <= host[0] <= 'z' && host[0] != 'w' && host[0] != 'v' && ':' !in host
  }

  /** https?:// at i: where the scheme ends. */
  function SchemeEnd(s: string, i: nat): (j: Option<nat>)
    ensures j.Some? ==> j.value <= |s|
  {
    if StartsAt(s, i, Https) then Some(i + 8)
    else if StartsAt(s, i, Http) then Some(i + 7)
    else None
  }

  /** (?:www\.)?<host>/ at j: where the user name starts. Neither host
      starts with "w", so the optional group never has to give back its
      "www.". */
  function UserStart(s: string, j: nat, host: string): (u: Option<nat>)
    ensures u.Some? ==> u.value <= |s|
  {
    var h := if StartsAt(s, j, Www) then j + 4 else j;
    if StartsAt(s, h, host + "/") then Some(h + |host| + 1) else None
  }

  /** (/status/\d+)? at e: where the optional group ends. */
  function StatusEnd(s: string, e: nat): (t: nat)
    requires e <= |s|
    ensures e <= t <= |s|
  {
    if StartsAt(s, e, StatusPrefix) && DigitEnd(s, e + 8) > e + 8 then DigitEnd(s, e + 8) else e
  }

  /** ([a-zA-Z0-9_]+)(/status/\d+)? at u: the user name and the optional
      status path. */
  function UserMatch(s: string, u: nat): (m: Option<Hit>)
    requires u <= |s|
    ensures m.Some? ==> u < m.value.end <= |s|
  {
    var e := WordEnd(s, u);
    if e == u then None
    else
      var t := StatusEnd(s, e);
      Some(Hit(t, s[u..e], s[e..t]))
  }

  /** https?://(?:www\.)?<host>/([a-zA-Z0-9_]+)(/status/\d+)? tried at
      position i. The quantifiers are greedy and never need to backtrack:
      "s" cannot also be ":", the user name stops at a non-word character
      and the digits at a non-digit. */
  function MatchAt(s: string, i: nat, host: string): (m: Option<Hit>)
    requires i <= |s|
    ensures m.Some? ==> i < m.value.end <= |s|
  {
    match SchemeEnd(s, i)
    case None => None
    case Some(j) =>
      match UserStart(s, j, host)
      case None => None
      case Some(u) => if i < u then UserMatch(s, u) else None
  }

  /** The replacement https://vxtwitter.com/\1\2. */
  function Replacement(hit: Hit): string {
    VxPrefix + hit.user + hit.status
  }

  /** What the pattern finds at each position of s. */
  function Matches(s: string, host: string): seq<Option<Hit>>
  {
    seq(|s|, k requires 0 <= k < |s| => MatchAt(s, k, host))
  }

  /** re.sub from position i, given what the pattern finds at each
      position: scan left to right, replace each match and resume after it,
      copy every other character. A match found by MatchAt always ends
      after it starts; the guard only keeps Scan total for other tables. */
  function Scan(s: string, ms: seq<Option<Hit>>, i: nat): string
    requires |ms| == |s| && i <= |s|
    decreases |s| - i
  {
    if i == |s| then []
    else
      match ms[i]
      case Some(hit) =>
        if i < hit.end <= |s| then Replacement(hit) + Scan(s, ms, hit.end)
        else [s[i]] + Scan(s, ms, i + 1)
      case None => [s[i]] + Scan(s, ms, i + 1)
  }

  function Sub(s: string, host: string): string {
    Scan(s, Matches(s, host), 0)
  }

  /** The two rewrites of on_message: twitter.com links first, then x.com. */
  function FixLinks(content: string): string {
    Sub(Sub(content, TwitterHost), XHost)
  }

  // ---------------------------------------------------------------- scanning

  lemma ConsSlice(s: string, i: nat, j: nat, x: string)
    requires i < j <= |s|
    ensures s[i..j] + x == [s[i]] + (s[i + 1..j] + x)
  {
    assert s[i..j] == [s[i]] + s[i + 1..j];
  }

  /** A position with no match is copied. */
  lemma ScanCopies(s: string, ms: seq<Option<Hit>>, i: nat)
    requires |ms| == |s| && i < |s| && ms[i].None?
    ensures Scan(s, ms, i) == [s[i]] + Scan(s, ms, i + 1)
  {
  }

  /** Positions with no match are copied verbatim. */
  lemma {:induction false} SkipNoMatch(s: string, ms: seq<Option<Hit>>, i: nat, j: nat)
    requires |ms| == |s| && i <= j <= |s|
    requires forall k | i <= k < j :: ms[k].None?
    ensures Scan(s, ms, i) == s[i..j] + Scan(s, ms, j)
    decreases j - i
  {
    if i < j {
      SkipNoMatch(s, ms, i + 1, j);
      ScanCopies(s, ms, i);
      ConsSlice(s, i, j, Scan(s, ms, j));
    } else {
      assert s[i..j] == [];
    }
  }

  /** The first position at or after i where the table has a match. */
  lemma {:induction false} FirstMatch(s: string, ms: seq<Option<Hit>>, i: nat) returns (j: nat)
    requires |ms| == |s| && i <= |s|
    requires exists k | i <= k < |s| :: ms[k].Some?
    ensures i <= j < |s| && ms[j].Some?
    ensures forall k | i <= k < j :: ms[k].None?
    decreases |s| - i
  {
    if ms[i].Some? {
      j := i;
    } else {
      j := FirstMatch(s, ms, i + 1);
    }
  }

  /** A table with no match anywhere leaves the text as it is. */
  lemma ScanAllNone(s: string, ms: seq<Option<Hit>>)
    requires |ms| == |s| && forall k | 0 <= k < |s| :: ms[k].None?
    ensures Scan(s, ms, 0) == s
  {
    SkipNoMatch(s, ms, 0, |s|);
    assert s[0..|s|] == s;
  }

  /** Up to the first match the text is copied, then the match is replaced. */
  lemma ScanFirstHit(s: string, ms: seq<Option<Hit>>, j: nat)
    requires |ms| == |s| && j < |s| && forall k | 0 <= k < j :: ms[k].None?
    requires ms[j].Some? && j < ms[j].value.end <= |s|
    ensures Scan(s, ms, 0) == s[..j] + Replacement(ms[j].value) + Scan(s, ms, ms[j].value.end)
  {
    SkipNoMatch(s, ms, 0, j);
    assert s[0..j] == s[..j];
  }

  /** Where the replacement of the first match differs from the text it
      covers, the scan changes the text. */
  lemma ScanChanges(s: string, ms: seq<Option<Hit>>, j: nat, idx: nat)
    requires |ms| == |s| && j < |s| && forall k | 0 <= k < j :: ms[k].None?
    requires ms[j].Some? && j < ms[j].value.end <= |s|
    requires idx < |Replacement(ms[j].value)| && j + idx < ms[j].value.end
    requires Replacement(ms[j].value)[idx] != s[j + idx]
    ensures Scan(s, ms, 0) != s
  {
    ScanFirstHit(s, ms, j);
    var out := Scan(s, ms, 0);
    assert out[j + idx] == Replacement(ms[j].value)[idx];
  }

  /** A table with a single match, at j, replaces that match and copies the
      text on both sides. */
  lemma ScanOneHit(s: string, ms: seq<Option<Hit>>, j: nat)
    requires |ms| == |s| && j < |s| && forall k | 0 <= k < j :: ms[k].None?
    requires ms[j].Some? && j < ms[j].value.end <= |s|
    requires forall k | ms[j].value.end <= k < |s| :: ms[k].None?
    ensures Scan(s, ms, 0) == s[..j] + Replacement(ms[j].value) + s[ms[j].value.end..]
  {
    ScanFirstHit(s, ms, j);
    var end := ms[j].value.end;
    SkipNoMatch(s, ms, end, |s|);
    assert s[end..|s|] == s[end..];
  }

  lemma SchemeShape(s: string, i: nat)
    requires SchemeEnd(s, i).Some?
    ensures i + 4 < |s| && s[i] == 'h' && s[i + 1] == 't' && s[i + 2] == 't' && s[i + 3] == 'p'
    ensures s[i + 4] == ':' || (i + 5 < |s| && s[i + 4] == 's' && s[i + 5] == ':')
    ensures SchemeEnd(s, i).value == (if s[i + 4] == 's' then i + 8 else i + 7)
    ensures SchemeEnd(s, i).value > i + 6 && s[SchemeEnd(s, i).value - 1] == '/'
  {
    if StartsAt(s, i, Https) {
      assert s[i] == Https[0] && s[i + 1] == Https[1] && s[i + 2] == Https[2] && s[i + 3] == Https[3];
      assert s[i + 4] == Https[4] && s[i + 5] == Https[5] && s[i + 7] == Https[7];
    } else {
      assert s[i] == Http[0] && s[i + 1] == Http[1] && s[i + 2] == Http[2] && s[i + 3] == Http[3];
      assert s[i + 4] == Http[4] && s[i + 6] == Http[6];
    }
  }

  lemma UserStartShape(s: string, j: nat, host: string)
    requires |host| > 0 && UserStart(s, j, host).Some?
    ensures j < |s| && (s[j] == 'w' || s[j] == host[0])
  {
    var h := if StartsAt(s, j, Www) then j + 4 else j;
    assert StartsAt(s, h, host + "/");
    assert s[h] == (host + "/")[0] == host[0];
    if h != j { assert s[j] == Www[0]; }
  }

  /** Every match starts with "http" and has its ":" four or five
      characters in. */
  lemma MatchShape(s: string, k: nat, host: string)
    requires k <= |s| && MatchAt(s, k, host).Some?
    ensures k + 4 < |s| && s[k] == 'h' && s[k + 1] == 't' && s[k + 2] == 't' && s[k + 3] == 'p'
    ensures s[k + 4] == ':' || (k + 5 < |s| && s[k + 4] == 's' && s[k + 5] == ':')
  {
    SchemeShape(s, k);
  }

  /** With a single ":" in the text, at position c, a match can only start
      at c - 5 or c - 4. */
  lemma MatchNearColon(s: string, k: nat, host: string, c: nat)
    requires k <= |s| && MatchAt(s, k, host).Some?
    requires forall p | 0 <= p < |s| && s[p] == ':' :: p == c
    ensures k + 5 == c || k + 4 == c
  {
    MatchShape(s, k, host);
  }

  // ---------------------------------------------------------------- rewriting

  /** Where the pattern matches, the replacement differs from the matched
      text at its seventh character (after "http://") or its eighth (after
      "https://"): there the match has "w" or the host's first letter. */
  lemma ReplacementDiffers(s: string, j: nat, host: string) returns (idx: nat)
    requires Host(host)
    requires j <= |s| && MatchAt(s, j, host).Some?
    ensures idx < |Replacement(MatchAt(s, j, host).value)|
    ensures j + idx < MatchAt(s, j, host).value.end
    ensures Replacement(MatchAt(s, j, host).value)[idx] != s[j + idx]
  {
    var hit := MatchAt(s, j, host).value;
    var rep := Replacement(hit);
    assert rep[7] == '/' && rep[8] == 'v';
    SchemeShape(s, j);
    var start := SchemeEnd(s, j).value;
    UserStartShape(s, start, host);
    idx := start - j;
  }

  /** A rewrite changes the text exactly when the pattern matches somewhere. */
  lemma SubChangesIffMatch(s: string, host: string)
    requires Host(host)
    ensures Sub(s, host) == s <==> forall k | 0 <= k < |s| :: MatchAt(s, k, host).None?
  {
    var ms := Matches(s, host);
    if forall k | 0 <= k < |s| :: MatchAt(s, k, host).None? {
      ScanAllNone(s, ms);
    } else {
      var k :| 0 <= k < |s| && MatchAt(s, k, host).Some?;
      assert ms[k].Some?;
      var j := FirstMatch(s, ms, 0);
      var idx := ReplacementDiffers(s, j, host);
      ScanChanges(s, ms, j, idx);
    }
  }

  /** The forms the pattern accepts in front of the host: "http://" or
      "https://", each with or without "www.". */
  datatype Form = Form(secure: bool, www: bool)

  function Scheme(f: Form): string {
    if f.secure then Https else Http
  }

  function WwwPart(f: Form): string {
    if f.www then Www else ""
  }

  /** Where the scheme's ":" sits in a link. */
  function ColonAt(f: Form): nat {
    if f.secure then 5 else 4
  }

  /** What follows the scheme and the optional "www." in a link:
      <host>/<user> with an optional /status/<digits>. */
  function LinkTail(host: string, user: string, digits: string): string {
    host + "/" + user + Status(digits)
  }

  /** The text of a link as written. */
  function Link(f: Form, host: string, user: string, digits: string): string {
    Scheme(f) + (WwwPart(f) + LinkTail(host, user, digits))
  }

  function Status(digits: string): string {
    if digits == [] then [] else StatusPrefix + digits
  }

  /** The link's rewritten form: the same link on vxtwitter.com, always
      over https and without "www.". */
  function Fixed(user: string, digits: string): string {
    Https + LinkTail(VxHost, user, digits)
  }

  lemma FixedIsLink(user: string, digits: string)
    ensures Fixed(user, digits) == Link(Form(true, false), VxHost, user, digits)
  {
    assert WwwPart(Form(true, false)) + LinkTail(VxHost, user, digits) == LinkTail(VxHost, user, digits);
  }

  /** The replacement of a match of a link is the link's rewritten form. */
  lemma ReplacementIsFixed(hit: Hit, user: string, digits: string)
    requires hit.user == user && hit.status == Status(digits)
    ensures Replacement(hit) == Fixed(user, digits)
  {
    assert VxPrefix == Https + (VxHost + "/");
  }

  predicate ValidUser(user: string) {
    |user| > 0 && forall i | 0 <= i < |user| :: WordChar(user[i])
  }

  predicate ValidDigits(digits: string) {
    digits == [] || IsDigits(digits)
  }

  /** Text around a link: no ":" of its own, and what follows the link
      starts with a space, if anything. */
  predicate Surround(a: string, b: string) {
    ':' !in a && ':' !in b && (b == [] || b[0] == ' ')
  }

  /** A host name that the pattern for host never reads as its own: it
      starts neither with "w" nor with host's first letter. */
  predicate OtherHost(other: string, host: string) {
    |other| > 0 && |host| > 0 && other[0] != 'w' && other[0] != host[0] && ':' !in other
  }

  lemma {:induction false} WordEndExact(s: string, i: nat, j: nat)
    requires i <= j <= |s|
    requires forall k | i <= k < j :: WordChar(s[k])
    requires j == |s| || !WordChar(s[j])
    ensures WordEnd(s, i) == j
    decreases j - i
  {
    if i < j { WordEndExact(s, i + 1, j); }
  }

  lemma {:induction false} DigitEndExact(s: string, i: nat, j: nat)
    requires i <= j <= |s|
    requires forall k | i <= k < j :: IsDigit(s[k])
    requires j == |s| || !IsDigit(s[j])
    ensures DigitEnd(s, i) == j
    decreases j - i
  {
    if i < j { DigitEndExact(s, i + 1, j); }
  }

  /** The user name and status part of a link hold no ":". */
  lemma TailColonFree(front: string, user: string, digits: string)
    requires ':' !in front && ValidUser(user) && ValidDigits(digits)
    ensures ':' !in front + user + Status(digits)
  {
    assert ':' !in user by {
      forall i | 0 <= i < |user| ensures user[i] != ':' { assert WordChar(user[i]); }
    }
    if digits != [] {
      assert ':' !in digits by {
        forall i | 0 <= i < |digits| ensures digits[i] != ':' { assert IsDigit(digits[i]); }
      }
    }
  }

  /** Nothing after a link's scheme holds a ":". */
  lemma AfterSchemeColonFree(f: Form, host: string, user: string, digits: string)
    requires ':' !in host && ValidUser(user) && ValidDigits(digits)
    ensures ':' !in WwwPart(f) + LinkTail(host, user, digits)
  {
    assert ':' !in WwwPart(f) by {
      if f.www { assert Www == ['w', 'w', 'w', '.']; }
    }
    TailColonFree(WwwPart(f) + host + "/", user, digits);
    assert WwwPart(f) + LinkTail(host, user, digits) == WwwPart(f) + host + "/" + user + Status(digits);
  }

  /** In a + scheme + tail + b, the only ":" is the scheme's. */
  lemma OneColon(a: string, f: Form, tail: string, b: string)
    requires ':' !in a && ':' !in tail && ':' !in b
    ensures var s := a + (Scheme(f) + tail) + b;
      forall p | 0 <= p < |s| && s[p] == ':' :: p == |a| + ColonAt(f)
  {
    var sc := Scheme(f);
    var t := sc + tail;
    var s := a + t + b;
    forall p | 0 <= p < |s| && p != |a| + ColonAt(f) ensures s[p] != ':' {
      if p < |a| { assert s[p] == a[p]; }
      else if p < |a| + |sc| {
        assert s[p] == t[p - |a|] == sc[p - |a|];
        if f.secure { assert sc == Https; } else { assert sc == Http; }
      }
      else if p < |a| + |t| { assert s[p] == t[p - |a|] == tail[p - |a| - |sc|]; }
      else { assert s[p] == b[p - |a| - |t|]; }
    }
  }

  /** The pieces of an occurrence of a link's tail. */
  lemma TailParts(s: string, i: nat, host: string, user: string, digits: string)
    requires StartsAt(s, i, LinkTail(host, user, digits))
    ensures StartsAt(s, i, host + "/")
    ensures StartsAt(s, i + 1 + |host|, user) && StartsAt(s, i + 1 + |host| + |user|, Status(digits))
  {
    StartsAtSplit(s, i, host + "/" + user, Status(digits));
    StartsAtSplit(s, i, host + "/", user);
  }

  /** The user name of a link, up to the first non-word character. */
  lemma MatchUser(s: string, u: nat, user: string)
    requires ValidUser(user) && StartsAt(s, u, user)
    requires u + |user| == |s| || !WordChar(s[u + |user|])
    ensures WordEnd(s, u) == u + |user| && s[u..u + |user|] == user
  {
    StartsAtSlice(s, u, user);
    forall k | u <= k < u + |user| ensures WordChar(s[k]) {
      assert s[u + (k - u)] == user[k - u];
    }
    WordEndExact(s, u, u + |user|);
  }

  /** The status part of a link, if any, up to the end or a space. */
  lemma MatchStatus(s: string, e: nat, digits: string)
    requires ValidDigits(digits) && StartsAt(s, e, Status(digits))
    requires e + |Status(digits)| == |s| || s[e + |Status(digits)|] == ' '
    ensures StatusEnd(s, e) == e + |Status(digits)| && s[e..e + |Status(digits)|] == Status(digits)
  {
    if digits == [] {
      if e < |s| { assert s[e] != StatusPrefix[0]; }
    } else {
      StartsAtSplit(s, e, StatusPrefix, digits);
      forall k | e + 8 <= k < e + 8 + |digits| ensures IsDigit(s[k]) {
        assert s[e + 8 + (k - e - 8)] == digits[k - e - 8];
      }
      DigitEndExact(s, e + 8, e + 8 + |digits|);
      StartsAtSlice(s, e, Status(digits));
    }
  }

  /** m is a match ending at end with the given groups. */
  predicate Found(m: Option<Hit>, end: nat, user: string, status: string) {
    m.Some? && m.value.end == end && m.value.user == user && m.value.status == status
  }

  /** UserMatch from where the user name and the status path end. */
  lemma UserMatchFromRuns(s: string, u: nat, e: nat, t: nat, user: string, status: string)
    requires u < e <= |s| && WordEnd(s, u) == e && StatusEnd(s, e) == t
    requires s[u..e] == user && s[e..t] == status
    ensures Found(UserMatch(s, u), t, user, status)
  {
  }

  /** MatchAt from the values of its stages. */
  lemma MatchFromStages(s: string, k: nat, host: string, j: nat, u: nat)
    requires k < u <= |s| && SchemeEnd(s, k) == Some(j) && UserStart(s, j, host) == Some(u)
    ensures MatchAt(s, k, host) == UserMatch(s, u)
  {
  }

  /** Where a scheme and the form's optional "www." occur at k, followed by
      a character other than "w", the pattern's scheme ends right after the
      scheme, and its optional group takes "www." exactly when the form has
      it. */
  lemma FrontStages(s: string, k: nat, f: Form, first: char)
    requires StartsAt(s, k, Scheme(f)) && StartsAt(s, k + |Scheme(f)|, WwwPart(f))
    requires k + |Scheme(f)| + |WwwPart(f)| < |s|
    requires s[k + |Scheme(f)| + |WwwPart(f)|] == first && first != 'w'
    ensures SchemeEnd(s, k) == Some(k + |Scheme(f)|)
    ensures StartsAt(s, k + |Scheme(f)|, Www) <==> f.www
  {
    if !f.secure {
      assert s[k + 4] == Http[4] == ':';
      assert Https[4] == 's';
    }
    if !f.www {
      assert |WwwPart(f)| == 0;
      assert s[k + |Scheme(f)|] == first;
      assert Www[0] == 'w';
    }
  }

  /** Where a link occurs, the pattern's scheme ends after "http://" or
      "https://" and its user name starts right after the host. */
  lemma LinkStages(s: string, k: nat, f: Form, host: string, user: string, digits: string) returns (j: nat, u: nat)
    requires Host(host)
    requires StartsAt(s, k, Link(f, host, user, digits))
    ensures j == k + |Scheme(f)| && u == j + |WwwPart(f)| + 1 + |host|
    ensures k < u && SchemeEnd(s, k) == Some(j) && UserStart(s, j, host) == Some(u)
    ensures StartsAt(s, u, user) && StartsAt(s, u + |user|, Status(digits))
    ensures k + |Link(f, host, user, digits)| == u + |user| + |Status(digits)|
  {
    var h;
    j, h, u := LinkOffsets(s, k, f, host, user, digits);
    FrontStages(s, k, f, host[0]);
    UserStartAt(s, j, f, host);
  }

  /** Where the pieces of a link start: the optional "www." at j, the host
      at h and the user name at u. */
  lemma LinkOffsets(s: string, k: nat, f: Form, host: string, user: string, digits: string)
    returns (j: nat, h: nat, u: nat)
    requires |host| > 0 && StartsAt(s, k, Link(f, host, user, digits))
    ensures j == k + |Scheme(f)| && h == j + |WwwPart(f)| && u == h + 1 + |host|
    ensures StartsAt(s, k, Scheme(f)) && StartsAt(s, j, WwwPart(f)) && StartsAt(s, h, host + "/")
    ensures h < |s| && s[h] == host[0]
    ensures StartsAt(s, u, user) && StartsAt(s, u + |user|, Status(digits))
    ensures k + |Link(f, host, user, digits)| == u + |user| + |Status(digits)|
  {
    j, h := FrontSplit(s, k, f, host, user, digits);
    TailParts(s, h, host, user, digits);
    u := h + 1 + |host|;
    assert s[h] == (host + "/")[0];
    LinkLength(f, host, user, digits);
  }

  /** A link splits into its scheme, its optional "www." and its tail. */
  lemma FrontSplit(s: string, k: nat, f: Form, host: string, user: string, digits: string) returns (j: nat, h: nat)
    requires StartsAt(s, k, Link(f, host, user, digits))
    ensures j == k + |Scheme(f)| && h == j + |WwwPart(f)|
    ensures StartsAt(s, k, Scheme(f)) && StartsAt(s, j, WwwPart(f)) && StartsAt(s, h, LinkTail(host, user, digits))
  {
    var sc, w, t := Scheme(f), WwwPart(f), LinkTail(host, user, digits);
    StartsAtSplit(s, k, sc, w + t);
    j := k + |sc|;
    h := j + |w|;
    if f.www {
      StartsAtSplit(s, j, w, t);
    } else {
      assert w + t == t;
    }
  }

  lemma LinkLength(f: Form, host: string, user: string, digits: string)
    ensures |Link(f, host, user, digits)| == |Scheme(f)| + |WwwPart(f)| + 1 + |host| + |user| + |Status(digits)|
  {
  }

  /** The pattern's optional "www." group, when it is there exactly as the
      form says, is followed by the host. */
  lemma UserStartAt(s: string, j: nat, f: Form, host: string)
    requires StartsAt(s, j, Www) <==> f.www
    requires StartsAt(s, j + |WwwPart(f)|, host + "/")
    ensures UserStart(s, j, host) == Some(j + |WwwPart(f)| + 1 + |host|)
  {
  }

  /** At the start of a link to another host, the pattern for host finds
      nothing. */
  lemma NoMatchAtLink(s: string, k: nat, f: Form, other: string, user: string, digits: string, host: string)
    requires OtherHost(other, host)
    requires StartsAt(s, k, Link(f, other, user, digits))
    ensures MatchAt(s, k, host).None?
  {
    var j, h, u := LinkOffsets(s, k, f, other, user, digits);
    FrontStages(s, k, f, other[0]);
    assert (host + "/")[0] == host[0];
  }

  /** With a single ":" in the text, the one of a scheme at k, the pattern
      matches nowhere but at k. */
  lemma OnlyAtScheme(s: string, k: nat, f: Form, host: string)
    requires StartsAt(s, k, Scheme(f))
    requires forall p | 0 <= p < |s| && s[p] == ':' :: p == k + ColonAt(f)
    ensures forall i | 0 <= i < |s| && i != k :: Matches(s, host)[i].None?
  {
    if f.secure { assert s[k + 1] == Https[1]; } else { assert s[k] == Http[0]; }
    forall i | 0 <= i < |s| && i != k ensures MatchAt(s, i, host).None? {
      if MatchAt(s, i, host).Some? {
        MatchNearColon(s, i, host, k + ColonAt(f));
        MatchShape(s, i, host);
      }
    }
  }

  /** A user name followed by an optional status path, then by the end of
      the text or a space: the runs the pattern takes are exactly those. */
  lemma TailRuns(s: string, u: nat, user: string, digits: string)
    requires ValidUser(user) && ValidDigits(digits)
    requires StartsAt(s, u, user) && StartsAt(s, u + |user|, Status(digits))
    requires u + |user| + |Status(digits)| == |s| || s[u + |user| + |Status(digits)|] == ' '
    ensures WordEnd(s, u) == u + |user| && s[u..u + |user|] == user
    ensures StatusEnd(s, u + |user|) == u + |user| + |Status(digits)|
    ensures s[u + |user|..u + |user| + |Status(digits)|] == Status(digits)
  {
    var e := u + |user|;
    assert e == |s| || !WordChar(s[e]) by {
      if digits != [] { assert s[e] == Status(digits)[0] == '/'; }
    }
    MatchUser(s, u, user);
    MatchStatus(s, e, digits);
  }

  /** Such a tail is matched whole. */
  lemma MatchLinkTail(s: string, u: nat, end: nat, user: string, digits: string)
    requires ValidUser(user) && ValidDigits(digits)
    requires StartsAt(s, u, user) && StartsAt(s, u + |user|, Status(digits))
    requires end == u + |user| + |Status(digits)|
    requires end == |s| || s[end] == ' '
    ensures Found(UserMatch(s, u), end, user, Status(digits))
  {
    var e := u + |user|;
    assert u < e;
    TailRuns(s, u, user, digits);
    assert WordEnd(s, u) == e && StatusEnd(s, e) == end;
    UserMatchFromRuns(s, u, e, end, user, Status(digits));
  }

  /** Where a whole link occurs, followed by the end of the text or a space,
      the pattern matches exactly that link, whatever its scheme and with or
      without "www.". */
  lemma MatchWholeLink(s: string, k: nat, f: Form, host: string, user: string, digits: string)
    requires Host(host)
    requires ValidUser(user) && ValidDigits(digits)
    requires StartsAt(s, k, Link(f, host, user, digits))
    requires k + |Link(f, host, user, digits)| == |s| || s[k + |Link(f, host, user, digits)|] == ' '
    ensures Found(MatchAt(s, k, host), k + |Link(f, host, user, digits)|, user, Status(digits))
  {
    var j, u := LinkStages(s, k, f, host, user, digits);
    MatchFromParts(s, k, j, u, k + |Link(f, host, user, digits)|, host, user, digits);
  }

  /** The pattern's stages up to the user name, then a user name and an
      optional status path ending at the end of the text or a space: the
      pattern matches up to there. */
  lemma MatchFromParts(s: string, k: nat, j: nat, u: nat, end: nat, host: string, user: string, digits: string)
    requires ValidUser(user) && ValidDigits(digits)
    requires k < u && SchemeEnd(s, k) == Some(j) && UserStart(s, j, host) == Some(u)
    requires StartsAt(s, u, user) && StartsAt(s, u + |user|, Status(digits))
    requires end == u + |user| + |Status(digits)| && (end == |s| || s[end] == ' ')
    ensures Found(MatchAt(s, k, host), end, user, Status(digits))
  {
    MatchFromStages(s, k, host, j, u);
    MatchLinkTail(s, u, end, user, digits);
  }

  /** In a link with colon-free surroundings the only ":" is the scheme's. */
  lemma LinkOneColon(a: string, f: Form, host: string, user: string, digits: string, b: string)
    requires ':' !in host && ValidUser(user) && ValidDigits(digits) && ':' !in a && ':' !in b
    ensures var s := a + Link(f, host, user, digits) + b;
      forall p | 0 <= p < |s| && s[p] == ':' :: p == |a| + ColonAt(f)
  {
    AfterSchemeColonFree(f, host, user, digits);
    OneColon(a, f, WwwPart(f) + LinkTail(host, user, digits), b);
  }

  /** t occurs in p + t + q, followed by the end of the text or a space
      when q is empty or starts with one. */
  lemma Occurs(p: string, t: string, q: string)
    requires q == [] || q[0] == ' '
    ensures StartsAt(p + t + q, |p|, t)
    ensures |p| + |t| == |p + t + q| || (p + t + q)[|p| + |t|] == ' '
  {
    StartsAtMiddle(p, t, q);
    if q != [] { assert (p + t + q)[|p| + |t|] == q[0]; }
  }

  /** Where a whole link occurs at k, followed by the end of the text or a
      space, and the text has no other ":", the rewrite replaces the link
      by its rewritten form and copies the rest. */
  lemma SubRewritesAt(s: string, k: nat, f: Form, host: string, user: string, digits: string)
    requires Host(host)
    requires ValidUser(user) && ValidDigits(digits)
    requires StartsAt(s, k, Link(f, host, user, digits))
    requires k + |Link(f, host, user, digits)| == |s| || s[k + |Link(f, host, user, digits)|] == ' '
    requires forall p | 0 <= p < |s| && s[p] == ':' :: p == k + ColonAt(f)
    ensures Sub(s, host) == s[..k] + Fixed(user, digits) + s[k + |Link(f, host, user, digits)|..]
  {
    MatchWholeLink(s, k, f, host, user, digits);
    var hit := MatchAt(s, k, host).value;
    LinkScheme(s, k, f, host, user, digits);
    SubOneHit(s, k, f, host, hit);
    ReplacementIsFixed(hit, user, digits);
  }

  lemma LinkScheme(s: string, k: nat, f: Form, host: string, user: string, digits: string)
    requires StartsAt(s, k, Link(f, host, user, digits))
    ensures StartsAt(s, k, Scheme(f))
  {
    StartsAtSplit(s, k, Scheme(f), WwwPart(f) + LinkTail(host, user, digits));
  }

  /** With a single ":" in the text, the one of a scheme at k, a match at k
      is the only thing the rewrite replaces. */
  lemma SubOneHit(s: string, k: nat, f: Form, host: string, hit: Hit)
    requires k < |s| && MatchAt(s, k, host) == Some(hit)
    requires StartsAt(s, k, Scheme(f))
    requires forall p | 0 <= p < |s| && s[p] == ':' :: p == k + ColonAt(f)
    ensures Sub(s, host) == s[..k] + Replacement(hit) + s[hit.end..]
  {
    OnlyAtScheme(s, k, f, host);
    ScanOneHit(s, Matches(s, host), k);
  }

  /** A link surrounded by colon-free text is rewritten in place and the rest
      of the text is kept. */
  lemma SubRewritesLink(a: string, f: Form, host: string, user: string, digits: string, b: string)
    requires Host(host)
    requires ValidUser(user) && ValidDigits(digits) && Surround(a, b)
    ensures Sub(a + Link(f, host, user, digits) + b, host) == a + Fixed(user, digits) + b
  {
    var link := Link(f, host, user, digits);
    var s := a + link + b;
    LinkOneColon(a, f, host, user, digits, b);
    Occurs(a, link, b);
    SubRewritesAt(s, |a|, f, host, user, digits);
    assert s[..|a|] == a && s[|a| + |link|..] == b;
  }

  /** Text holding one link to another host, with colon-free surroundings,
      has no match and is kept as it is. */
  lemma SubKeepsOther(a: string, f: Form, other: string, user: string, digits: string, b: string, host: string)
    requires OtherHost(other, host)
    requires ValidUser(user) && ValidDigits(digits) && ':' !in a && ':' !in b
    ensures Sub(a + Link(f, other, user, digits) + b, host) == a + Link(f, other, user, digits) + b
  {
    var s := a + Link(f, other, user, digits) + b;
    var ms := Matches(s, host);
    LinkOneColon(a, f, other, user, digits, b);
    StartsAtMiddle(a, Link(f, other, user, digits), b);
    LinkScheme(s, |a|, f, other, user, digits);
    OnlyAtScheme(s, |a|, f, host);
    NoMatchAtLink(s, |a|, f, other, user, digits, host);
    ScanAllNone(s, ms);
  }

  /** A twitter.com link in a message, over http or https and with or
      without "www.", becomes its vxtwitter.com form, and the x.com pass
      leaves the result alone. */
  lemma FixTwitterLink(a: string, f: Form, user: string, digits: string, b: string)
    requires ValidUser(user) && ValidDigits(digits) && Surround(a, b)
    ensures FixLinks(a + Link(f, TwitterHost, user, digits) + b) == a + Fixed(user, digits) + b
  {
    SubRewritesLink(a, f, TwitterHost, user, digits, b);
    FixedIsLink(user, digits);
    SubKeepsOther(a, Form(true, false), VxHost, user, digits, b, XHost);
  }

  /** An x.com link, in any of the same forms, is left alone by the
      twitter.com pass and rewritten by the x.com pass. */
  lemma FixXLink(a: string, f: Form, user: string, digits: string, b: string)
    requires ValidUser(user) && ValidDigits(digits) && Surround(a, b)
    ensures FixLinks(a + Link(f, XHost, user, digits) + b) == a + Fixed(user, digits) + b
  {
    SubKeepsOther(a, f, XHost, user, digits, b, TwitterHost);
    SubRewritesLink(a, f, XHost, user, digits, b);
  }

  /** Text with no ":" at all has no link and is never changed. */
  lemma NoColonUnchanged(s: string)
    requires ':' !in s
    ensures FixLinks(s) == s
  {
    forall k | 0 <= k < |s| ensures MatchAt(s, k, TwitterHost).None? {
      if MatchAt(s, k, TwitterHost).Some? { MatchShape(s, k, TwitterHost); }
    }
    SubChangesIffMatch(s, TwitterHost);
    forall k | 0 <= k < |s| ensures MatchAt(s, k, XHost).None? {
      if MatchAt(s, k, XHost).Some? { MatchShape(s, k, XHost); }
    }
    SubChangesIffMatch(s, XHost);
  }

  // ---------------------------------------------------------------- on_message

  /** The parts of a discord.Message the listener reads. */
  datatype Message = Message(
    fromThisBot: bool,    // message.author == self.bot.user
    inGuild: bool,        // message.guild is set
    content: string,
    authorMention: string,
    repliesToMessage: bool)   // message.reference resolves to a Message

  /** How an awaited Discord call ends. */
  datatype CallResult = Succeeds | RaisesForbidden | RaisesOther

  /** What the listener does in the channel. */
  datatype Effect = Repost(text: string, asReply: bool) | DeleteOriginal

  /** on_message: ignore this bot's own messages, direct messages and
      messages the rewrite leaves unchanged; otherwise repost (as a reply to
      the same message when the original was a reply), delete the original,
      and count a 'fixtter' use. Any exception ends the handler: a failed
      send posts nothing, a failed delete keeps the repost but skips the
      count. */
  function OnMessageSpec(d: Db, m: Message, send: CallResult, delete: CallResult, c: Conn): (Db, seq<Effect>)
  {
    if m.fromThisBot || !m.inGuild then (d, [])
    else RepostSpec(d, m, FixLinks(m.content), send, delete, c)
  }

  /** The listener's steps once the rewritten text is known. */
  function RepostSpec(d: Db, m: Message, fixed: string, send: CallResult, delete: CallResult, c: Conn): (Db, seq<Effect>)
  {
    if fixed == m.content then (d, [])
    else
      var post := Repost(m.authorMention + " posted: " + fixed, m.repliesToMessage);
      if !send.Succeeds? then (d, [])
      else if !delete.Succeeds? then (d, [post])
      else (Usage.TrackSpec(d, "fixtter", c), [post, DeleteOriginal])
  }

  method OnMessage(store: Store, m: Message, send: CallResult, delete: CallResult, c: Conn) returns (effects: seq<Effect>)
    requires store.Valid()
    modifies store
    ensures store.Valid()
    ensures (store.State(), effects) == OnMessageSpec(old(store.State()), m, send, delete, c)
  {
    effects := [];
    if m.fromThisBot || !m.inGuild {
      return;
    }
    var modified := FixLinks(m.content);
    if modified == m.content {
      return;
    }
    var post := Repost(m.authorMention + " posted: " + modified, m.repliesToMessage);
    if !send.Succeeds? {
      return;   // Forbidden or another error: logged
    }
    if !delete.Succeeds? {
      effects := [post];
      return;
    }
    Usage.TrackCommandUsage(store, "fixtter", c);
    effects := [post, DeleteOriginal];
  }

  /** Only the usage counter can change, and only the 'fixtter' count, by
      one, after both the repost and the delete went through; a message
      without a link anywhere produces nothing. */
  lemma OnMessageEffects(d: Db, m: Message, send: CallResult, delete: CallResult, c: Conn)
    ensures var (d', effects) := OnMessageSpec(d, m, send, delete, c);
      && d'.users == d.users && d'.balances == d.balances && d'.tables == d.tables
      && (d' != d ==> effects == [Repost(m.authorMention + " posted: " + FixLinks(m.content), m.repliesToMessage), DeleteOriginal])
      && (d' == d || d'.usage == d.usage["fixtter" := (if "fixtter" in d.usage then d.usage["fixtter"] else 0) + 1])
      && (DeleteOriginal in effects ==> send.Succeeds? && delete.Succeeds?)
      && (effects != [] ==> !m.fromThisBot && m.inGuild && FixLinks(m.content) != m.content)
      && (':' !in m.content ==> d' == d && effects == [])
  {
    if ':' !in m.content { NoColonUnchanged(m.content); }
    if !m.fromThisBot && m.inGuild {
      RepostEffects(d, m, FixLinks(m.content), send, delete, c);
    }
  }

  lemma RepostEffects(d: Db, m: Message, fixed: string, send: CallResult, delete: CallResult, c: Conn)
    ensures var (d', effects) := RepostSpec(d, m, fixed, send, delete, c);
      && d'.users == d.users && d'.balances == d.balances && d'.tables == d.tables
      && (d' != d ==> effects == [Repost(m.authorMention + " posted: " + fixed, m.repliesToMessage), DeleteOriginal])
      && (d' == d || d'.usage == d.usage["fixtter" := (if "fixtter" in d.usage then d.usage["fixtter"] else 0) + 1])
      && (DeleteOriginal in effects ==> send.Succeeds? && delete.Succeeds?)
      && (effects != [] ==> fixed != m.content)
  {
    if fixed != m.content && send.Succeeds? && delete.Succeeds? {
      var post := Repost(m.authorMention + " posted: " + fixed, m.repliesToMessage);
      assert RepostSpec(d, m, fixed, send, delete, c) == (Usage.TrackSpec(d, "fixtter", c), [post, DeleteOriginal]);
    }
  }

  /** The rewritten text differs from the original: the part in front of
      the user name has another length in every form. */
  lemma FixedDiffers(a: string, f: Form, host: string, user: string, digits: string, b: string)
    requires host == TwitterHost || host == XHost
    ensures a + Fixed(user, digits) + b != a + Link(f, host, user, digits) + b
  {
    assert |Fixed(user, digits)| == 22 + |user| + |Status(digits)|;
    assert |Link(f, host, user, digits)| == |Scheme(f)| + |WwwPart(f)| + |host| + 1 + |user| + |Status(digits)|;
  }

  /** A guild message from another user holding a twitter.com or x.com link,
      in any of the forms the pattern accepts, is reposted with the
      vxtwitter.com link, the original deleted and the use counted. */
  lemma OnMessageFixesLink(d: Db, m: Message, a: string, f: Form, host: string, user: string, digits: string, b: string, c: Conn)
    requires host == TwitterHost || host == XHost
    requires ValidUser(user) && ValidDigits(digits) && Surround(a, b)
    requires m.content == a + Link(f, host, user, digits) + b
    requires !m.fromThisBot && m.inGuild
    requires Reaches(c, 2) && CommandUsage in d.tables
    ensures var (d', effects) := OnMessageSpec(d, m, Succeeds, Succeeds, c);
      && effects == [Repost(m.authorMention + " posted: " + (a + Fixed(user, digits) + b), m.repliesToMessage), DeleteOriginal]
      && d'.usage["fixtter"] == (if "fixtter" in d.usage then d.usage["fixtter"] else 0) + 1
  {
    var fixed := a + Fixed(user, digits) + b;
    if host == TwitterHost {
      FixTwitterLink(a, f, user, digits, b);
    } else {
      FixXLink(a, f, user, digits, b);
    }
    FixedDiffers(a, f, host, user, digits, b);
    OnMessageReposts(d, m, fixed, c);
    Usage.TrackEffect(d, "fixtter", c);
  }

  /** A guild message from another user that the rewrite changes is
      reposted and deleted, and the use counted, when both calls succeed. */
  lemma OnMessageReposts(d: Db, m: Message, fixed: string, c: Conn)
    requires !m.fromThisBot && m.inGuild
    requires FixLinks(m.content) == fixed && fixed != m.content
    ensures OnMessageSpec(d, m, Succeeds, Succeeds, c)
      == (Usage.TrackSpec(d, "fixtter", c), [Repost(m.authorMention + " posted: " + fixed, m.repliesToMessage), DeleteOriginal])
  {
  }
}
