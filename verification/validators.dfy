/** The form validators of frontend/src/utils/validators.js. Each regular
    expression is given twice: as a shape predicate that reads like the
    pattern (positions of the separators and the character class of every
    segment) and as the scanning check the page would run, with a lemma
    that the two agree on every string. */
module Validators {
  import opened Common
  import opened Strings

  /** First position of c in s. */
  function FirstIndex(s: string, c: char): (r: Option<nat>)
    ensures r.Some? ==> r.value < |s| && s[r.value] == c && forall k :: 0 <= k < r.value ==> s[k] != c
    ensures r.None? <==> forall k :: 0 <= k < |s| ==> s[k] != c
    decreases |s|
  {
    if |s| == 0 then None
    else if s[0] == c then Some(0)
    else match FirstIndex(s[1..], c)
      case None => None
      case Some(i) => Some(i + 1)
  }

  /** Last position of c in s. */
  function LastIndex(s: string, c: char): (r: Option<nat>)
    ensures r.Some? ==> r.value < |s| && s[r.value] == c && forall k :: r.value < k < |s| ==> s[k] != c
    ensures r.None? <==> forall k :: 0 <= k < |s| ==> s[k] != c
    decreases |s|
  {
    if |s| == 0 then None
    else if s[|s| - 1] == c then Some(|s| - 1)
    else LastIndex(s[..|s| - 1], c)
  }

  /** `[a-zA-Z0-9._%+-]`, the local-part class of both email patterns. */
  predicate IsLocalChar(c: char) {
    IsLetter(c) || IsDigit(c) || c == '.' || c == '_' || c == '%' || c == '+' || c == '-'
  }

  /** `[a-zA-Z0-9.-]`, the domain class. */
  predicate IsDomainChar(c: char) {
    IsLetter(c) || IsDigit(c) || c == '.' || c == '-'
  }

  predicate AllLocal(s: string) { forall i :: 0 <= i < |s| ==> IsLocalChar(s[i]) }
  predicate AllDomain(s: string) { forall i :: 0 <= i < |s| ==> IsDomainChar(s[i]) }

  /** `^[a-zA-Z0-9._%+-]+@[a-zA-Z0-9.-]+\.[a-zA-Z]{2,}$` matched with the
      '@' at position `at` and the final '.' at position `dot`. */
  predicate EmailSplit(s: string, at: int, dot: int) {
    && 1 <= at && at + 1 < dot && dot + 3 <= |s|
    && s[at] == '@' && s[dot] == '.'
    && AllLocal(s[..at]) && AllDomain(s[at + 1..dot]) && AllLetters(s[dot + 1..])
  }

  /** The pattern matches s. */
  ghost predicate EmailShape(s: string) {
    exists at, dot :: EmailSplit(s, at, dot)
  }

  /** The part after the '@': a non-empty domain, a '.', and at least two
      letters. The top-level domain holds no '.', so the separator is the
      last '.'. */
  predicate DomainAndTld(r: string) {
    match LastIndex(r, '.')
    case None => false
    case Some(j) => 1 <= j && j + 3 <= |r| && AllDomain(r[..j]) && AllLetters(r[j + 1..])
  }

  /** `validateEmail`: neither class admits '@', so the local part ends at
      the first '@'. */
  function ValidateEmail(s: string): (r: bool)
    ensures r ==> exists i :: 0 < i < |s| && s[i] == '@'
  {
    match FirstIndex(s, '@')
    case None => false
    case Some(i) => 1 <= i && AllLocal(s[..i]) && DomainAndTld(s[i + 1..])
  }

  /** The scanning check accepts exactly the strings the pattern matches. */
  lemma ValidateEmailMatchesPattern(s: string)
    ensures ValidateEmail(s) <==> EmailShape(s)
  {
    if ValidateEmail(s) {
      var i := FirstIndex(s, '@').value;
      var rest := s[i + 1..];
      var j := LastIndex(rest, '.').value;
      assert rest[..j] == s[i + 1..i + 1 + j];
      assert rest[j + 1..] == s[i + 1 + j + 1..];
      assert EmailSplit(s, i, i + 1 + j);
    }
    if EmailShape(s) {
      var at, dot :| EmailSplit(s, at, dot);
      EmailSplitIsCanonical(s, at, dot);
    }
  }

  /** A match of the pattern puts its '@' at the first '@' and its '.' at
      the last '.' after it. */
  lemma EmailSplitIsCanonical(s: string, at: int, dot: int)
    requires EmailSplit(s, at, dot)
    ensures ValidateEmail(s)
  {
    forall k | 0 <= k < at ensures s[k] != '@' {
      assert s[k] == s[..at][k];
    }
    FirstAt(s, at, '@');
    DomainAfter(s, at, dot);
  }

  /** What follows the '@' of a match is a domain, a last '.', and the
      top-level letters. */
  lemma DomainAfter(s: string, at: int, dot: int)
    requires EmailSplit(s, at, dot)
    ensures DomainAndTld(s[at + 1..])
  {
    var rest := s[at + 1..];
    var j := dot - at - 1;
    forall k | j < k < |rest| ensures rest[k] != '.' {
      assert rest[k] == s[dot + 1..][k - j - 1];
    }
    LastAt(rest, j, '.');
    assert rest[..j] == s[at + 1..dot];
    assert rest[j + 1..] == s[dot + 1..];
  }

  /** An occurrence with none before it is the first one. */
  lemma FirstAt(s: string, i: nat, c: char)
    requires i < |s| && s[i] == c && forall k :: 0 <= k < i ==> s[k] != c
    ensures FirstIndex(s, c) == Some(i)
  {
  }

  /** An occurrence with none after it is the last one. */
  lemma LastAt(s: string, i: nat, c: char)
    requires i < |s| && s[i] == c && forall k :: i < k < |s| ==> s[k] != c
    ensures LastIndex(s, c) == Some(i)
  {
  }

  /** The domain `validateInesEmail` insists on. */
  const InesDomain: string := "@ines.ac.rw"

  /** `validateInesEmail`: `^[a-zA-Z0-9._%+-]+@ines\.ac\.rw$`. */
  function ValidateInesEmail(s: string): (r: bool)
    ensures r ==> |s| > |InesDomain| && s == s[..|s| - |InesDomain|] + InesDomain
  {
    |s| > |InesDomain| && s[|s| - |InesDomain|..] == InesDomain && AllLocal(s[..|s| - |InesDomain|])
  }

  /** The accepted strings are exactly a non-empty local part followed by
      "@ines.ac.rw". */
  lemma InesEmailShape(local: string)
    ensures ValidateInesEmail(local + InesDomain) <==> |local| >= 1 && AllLocal(local)
  {
    var s := local + InesDomain;
    assert s[..|s| - |InesDomain|] == local;
    assert s[|s| - |InesDomain|..] == InesDomain;
  }

  /** Every address `validateInesEmail` accepts, `validateEmail` accepts too. */
  lemma InesEmailIsEmail(s: string)
    requires ValidateInesEmail(s)
    ensures ValidateEmail(s)
  {
    var n := |s| - |InesDomain|;
    assert s[n..] == InesDomain;
    assert s[n] == '@';
    assert s[n + 5] == '.' && s[n + 8] == '.';
    assert s[n + 1..n + 8] == "ines.ac";
    assert s[n + 9..] == "rw";
    EmailSplitIsCanonical(s, n, n + 8);
  }

  /** The page's strength rule: at least eight characters. */
  const MinPasswordLength: nat := 8

  function HasDigit(s: string): (r: bool)
    ensures r <==> exists i :: 0 <= i < |s| && IsDigit(s[i])
    decreases |s|
  {
    if |s| == 0 then false
    else IsDigit(s[0]) || (assert forall i :: 1 <= i < |s| ==> s[i] == s[1..][i - 1]; HasDigit(s[1..]))
  }

  /** `validatePassword`: long enough and holding a digit somewhere. */
  function ValidatePassword(p: string): (r: bool)
    ensures r <==> |p| >= MinPasswordLength && exists i :: 0 <= i < |p| && IsDigit(p[i])
  {
    |p| >= MinPasswordLength && HasDigit(p)
  }

  /** The three prefixes of `^(\+?250|0)7[0-9]{8}$`. */
  const PhonePrefixes: seq<string> := ["+250", "250", "0"]

  /** s is the prefix, a '7' and eight digits. */
  predicate PhoneWith(s: string, prefix: string) {
    && |s| == |prefix| + 9
    && s[..|prefix|] == prefix
    && s[|prefix|] == '7'
    && AllDigits(s[|prefix| + 1..])
  }

  /** The pattern matches s. */
  ghost predicate PhoneShape(s: string) {
    exists k :: 0 <= k < |PhonePrefixes| && PhoneWith(s, PhonePrefixes[k])
  }

  /** `validatePhoneNumber`, deciding the prefix by length. */
  function ValidatePhoneNumber(s: string): (r: bool)
    ensures r ==> |s| == 10 || |s| == 12 || |s| == 13
  {
    if |s| == 10 then PhoneWith(s, "0")
    else if |s| == 12 then PhoneWith(s, "250")
    else if |s| == 13 then PhoneWith(s, "+250")
    else false
  }

  lemma ValidatePhoneNumberMatchesPattern(s: string)
    ensures ValidatePhoneNumber(s) <==> PhoneShape(s)
  {
    if ValidatePhoneNumber(s) {
      if |s| == 10 {
        assert PhoneWith(s, PhonePrefixes[2]);
      } else if |s| == 12 {
        assert PhoneWith(s, PhonePrefixes[1]);
      } else {
        assert PhoneWith(s, PhonePrefixes[0]);
      }
    }
  }

  /** A local mobile number written in any of the three accepted ways. */
  lemma PhoneFormsAccepted(eight: string)
    requires |eight| == 8 && AllDigits(eight)
    ensures ValidatePhoneNumber("07" + eight)
    ensures ValidatePhoneNumber("2507" + eight)
    ensures ValidatePhoneNumber("+2507" + eight)
  {
    assert ("07" + eight)[..1] == "0" && ("07" + eight)[2..] == eight;
    assert ("2507" + eight)[..3] == "250" && ("2507" + eight)[4..] == eight;
    assert ("+2507" + eight)[..4] == "+250" && ("+2507" + eight)[5..] == eight;
  }

  /** The characters `String.prototype.trim` removes: ECMAScript WhiteSpace
      and LineTerminator. */
  predicate IsJsSpace(c: char) {
    || c == '\t' || c == '\n' || c == '\U{B}' || c == '\U{C}' || c == '\r' || c == ' '
    || c == '\U{A0}' || c == '\U{1680}' || ('\U{2000}' <= c <= '\U{200A}')
    || c == '\U{2028}' || c == '\U{2029}' || c == '\U{202F}' || c == '\U{205F}'
    || c == '\U{3000}' || c == '\U{FEFF}'
  }

  predicate AllSpace(s: string) { forall i :: 0 <= i < |s| ==> IsJsSpace(s[i]) }

  /** How many blanks `trim` drops from the front. */
  function LeadingBlanks(s: string): (n: nat)
    ensures n <= |s| && AllSpace(s[..n])
    ensures n < |s| ==> !IsJsSpace(s[n])
    decreases |s|
  {
    if |s| > 0 && IsJsSpace(s[0]) then
      var n := 1 + LeadingBlanks(s[1..]);
      assert s[..n] == [s[0]] + s[1..][..n - 1];
      n
    else 0
  }

  /** Where the text ends once `trim` has dropped the trailing blanks. */
  function TextEnd(s: string): (m: nat)
    ensures m <= |s| && AllSpace(s[m..])
    ensures m > 0 ==> !IsJsSpace(s[m - 1])
    decreases |s|
  {
    if |s| > 0 && IsJsSpace(s[|s| - 1]) then
      var m := TextEnd(s[..|s| - 1]);
      assert s[m..] == s[..|s| - 1][m..] + [s[|s| - 1]];
      m
    else |s|
  }

  /** `s.trim()`: what lies between the leading and the trailing blanks. It
      starts right after the leading blanks, only blanks follow it, and
      neither of its ends is a blank. */
  function Trim(s: string): (r: string)
    ensures LeadingBlanks(s) + |r| <= |s|
    ensures r == s[LeadingBlanks(s)..LeadingBlanks(s) + |r|]
    ensures AllSpace(s[LeadingBlanks(s) + |r|..])
    ensures |r| > 0 ==> !IsJsSpace(r[0]) && !IsJsSpace(r[|r| - 1])
  {
    var a := LeadingBlanks(s);
    var t := s[a..];
    var m := TextEnd(t);
    assert t[m..] == s[a + m..];
    t[..m]
  }

  /** `validateRequiredField`: present and not blank. */
  function ValidateRequiredField(v: Option<string>): (r: bool)
  {
    v.Some? && Trim(v.value) != ""
  }

  /** A present value is accepted iff one of its characters is not white
      space. */
  lemma RequiredFieldIffNonBlank(v: Option<string>)
    ensures ValidateRequiredField(v) <==> v.Some? && exists i :: 0 <= i < |v.value| && !IsJsSpace(v.value[i])
  {
    if v.Some? {
      var s := v.value;
      var r := Trim(s);
      var a := LeadingBlanks(s);
      if r == "" {
        AllSpaceJoin(s, a);
      } else {
        assert s[a] == r[0];
      }
    }
  }

  /** Two blank halves make a blank string. */
  lemma AllSpaceJoin(s: string, a: int)
    requires 0 <= a <= |s| && AllSpace(s[..a]) && AllSpace(s[a..])
    ensures AllSpace(s)
  {
    forall i | 0 <= i < |s| ensures IsJsSpace(s[i]) {
      if i < a {
        assert s[i] == s[..a][i];
      } else {
        assert s[i] == s[a..][i - a];
      }
    }
  }


  /** An uploaded file as the browser describes it. */
  datatype File = File(size: int, mimeType: string)

  /** Five megabytes. */
  const MaxImageSize: int := 5 * 1024 * 1024

  const ImageTypes: seq<string> := ["image/jpeg", "image/png", "image/gif", "image/webp"]

  /** `validateImage`: no file is fine; an oversized file is refused before
      its type is looked at; otherwise only the four image types pass. */
  function ValidateImage(f: Option<File>): (r: bool)
    ensures f.None? ==> r
    ensures f.Some? && f.value.size > 5242880 ==> !r
    ensures f.Some? && f.value.size <= 5242880 ==> (r <==> f.value.mimeType in ImageTypes)
  {
    if f.None? then true
    else if f.value.size > MaxImageSize then false
    else f.value.mimeType in ImageTypes
  }
}
