/** Normalising what a user pastes (a bare item or product id, or a whole listing URL)
    into a marketplace id: trim, then take the leftmost match of the case-insensitive
    pattern `(ML[A-Z]{0,2})-?(\d{5,})` and return its prefix upper-cased followed by its
    digits (backend/src/meli/meli.service.ts, extractItemOrProductId). */
module MeliIds {
  import opened Common

  predicate IsAsciiLetter(c: char) { 'A' <= c <= 'Z' || 'a' <= c <= 'z' }

  predicate IsAsciiUpper(c: char) { 'A' <= c <= 'Z' }

  predicate IsDigit(c: char) { '0' <= c <= '9' }

  function UpperChar(c: char): char
  {
    if 'a' <= c <= 'z' then (c as int - 32) as char else c
  }

  /** `toUpperCase` on the ASCII letters the pattern can capture. */
  function Upper(s: string): (r: string)
    ensures |r| == |s|
    ensures forall i :: 0 <= i < |s| ==> r[i] == UpperChar(s[i])
  {
    seq(|s|, i requires 0 <= i < |s| => UpperChar(s[i]))
  }

  /** The characters `String.prototype.trim` removes: ECMAScript WhiteSpace and
      LineTerminator. */
  predicate IsJsSpace(c: char)
  {
    || c == '\t' || c == '\n' || c == '\U{000B}' || c == '\U{000C}' || c == '\r' || c == ' '
    || c == '\U{00A0}' || c == '\U{1680}' || ('\U{2000}' <= c <= '\U{200A}')
    || c == '\U{2028}' || c == '\U{2029}' || c == '\U{202F}' || c == '\U{205F}'
    || c == '\U{3000}' || c == '\U{FEFF}'
  }

  function TrimStart(s: string): (r: string)
    ensures |r| <= |s| && r == s[|s| - |r|..]
    ensures r == [] <==> forall i :: 0 <= i < |s| ==> IsJsSpace(s[i])
    ensures r != [] ==> !IsJsSpace(r[0])
  {
    if |s| > 0 && IsJsSpace(s[0]) then TrimStart(s[1..]) else s
  }

  function TrimEnd(s: string): (r: string)
    ensures |r| <= |s| && r == s[..|r|]
    ensures r == [] <==> forall i :: 0 <= i < |s| ==> IsJsSpace(s[i])
    ensures r != [] ==> !IsJsSpace(r[|r| - 1])
  {
    if |s| > 0 && IsJsSpace(s[|s| - 1]) then TrimEnd(s[..|s| - 1]) else s
  }

  function Trim(s: string): (r: string)
  {
    TrimEnd(TrimStart(s))
  }

  /** A string with no blank at either end is its own trim; a blank one trims to "". */
  lemma TrimFacts(s: string)
    ensures Trim(s) == [] <==> forall i :: 0 <= i < |s| ==> IsJsSpace(s[i])
  {
    var t := TrimStart(s);
    if Trim(s) == [] && |t| > 0 {
      assert IsJsSpace(t[0]);
    }
  }

  lemma TrimUnchanged(s: string)
    requires |s| > 0 && !IsJsSpace(s[0]) && !IsJsSpace(s[|s| - 1])
    ensures Trim(s) == s
  {
  }

  /** Length of the run of characters satisfying `p` that starts at `i`. */
  function RunLength(s: string, i: nat, p: char -> bool): (n: nat)
    requires i <= |s|
    ensures i + n <= |s|
    ensures forall j :: i <= j < i + n ==> p(s[j])
    ensures i + n < |s| ==> !p(s[i + n])
    decreases |s| - i
  {
    if i < |s| && p(s[i]) then 1 + RunLength(s, i + 1, p) else 0
  }

  /** `ML` in either case at position `i`. */
  predicate MlAt(s: string, i: nat)
  {
    i + 2 <= |s| && (s[i] == 'M' || s[i] == 'm') && (s[i + 1] == 'L' || s[i + 1] == 'l')
  }

  /** One way the pattern matches `s` at `i`: `k` letters after `ML`, a hyphen or not,
      then `n` digits. */
  ghost predicate PatternAt(s: string, i: nat, k: nat, h: bool, n: nat)
  {
    var d := i + 2 + k + (if h then 1 else 0);
    && k <= 2 && n >= 5 && d + n <= |s|
    && MlAt(s, i)
    && (forall j :: i + 2 <= j < i + 2 + k ==> IsAsciiLetter(s[j]))
    && (h ==> s[i + 2 + k] == '-')
    && (forall j :: d <= j < d + n ==> IsDigit(s[j]))
  }

  ghost predicate MatchesAt(s: string, i: nat)
  {
    exists k: nat, h: bool, n: nat :: PatternAt(s, i, k, h, n)
  }

  /** The match the regex engine reports at one start position. */
  datatype IdMatch = IdMatch(start: nat, letters: nat, hyphen: bool, digits: nat)
  {
    function DigitsStart(): nat { start + 2 + letters + (if hyphen then 1 else 0) }
    function End(): nat { DigitsStart() + digits }
  }

  function MatchAt(s: string, i: nat): (m: Option<IdMatch>)
    ensures m.Some? ==> m.value.start == i && m.value.End() <= |s|
  {
    if !MlAt(s, i) then None
    else
      var k := RunLength(s, i + 2, IsAsciiLetter);
      if k > 2 then None
      else
        var h := i + 2 + k < |s| && s[i + 2 + k] == '-';
        var d := i + 2 + k + (if h then 1 else 0);
        var n := RunLength(s, d, IsDigit);
        if n < 5 then None else Some(IdMatch(i, k, h, n))
  }

  /** What the engine reports is a match, and its digit run cannot be extended. */
  lemma MatchAtSound(s: string, i: nat)
    requires MatchAt(s, i).Some?
    ensures var m := MatchAt(s, i).value;
      && PatternAt(s, i, m.letters, m.hyphen, m.digits)
      && (m.End() < |s| ==> !IsDigit(s[m.End()]))
  {
  }

  /** Any match at `i` has the letters and hyphen the engine chose, and no more digits:
      the greedy choice is the only one that can succeed. */
  lemma MatchAtComplete(s: string, i: nat, k: nat, h: bool, n: nat)
    requires PatternAt(s, i, k, h, n)
    ensures MatchAt(s, i).Some?
    ensures var m := MatchAt(s, i).value; m.letters == k && m.hyphen == h && n <= m.digits
  {
    var run := RunLength(s, i + 2, IsAsciiLetter);
    var d := i + 2 + k + (if h then 1 else 0);
    var digits := RunLength(s, d, IsDigit);
  }

  lemma MatchesAtIff(s: string, i: nat)
    ensures MatchesAt(s, i) <==> MatchAt(s, i).Some?
  {
    if MatchAt(s, i).Some? {
      MatchAtSound(s, i);
      var m := MatchAt(s, i).value;
      assert PatternAt(s, i, m.letters, m.hyphen, m.digits);
    } else if MatchesAt(s, i) {
      var k: nat, h: bool, n: nat :| PatternAt(s, i, k, h, n);
      MatchAtComplete(s, i, k, h, n);
    }
  }

  /** The regex search: the first start position, from `from` on, with a match. */
  function FindMatch(s: string, from: nat): (m: Option<IdMatch>)
    ensures m.Some? ==> from <= m.value.start && MatchAt(s, m.value.start) == m
    decreases |s| - from
  {
    if from >= |s| then None
    else if MatchAt(s, from).Some? then MatchAt(s, from)
    else FindMatch(s, from + 1)
  }

  /** `m` is what the engine reports when the leftmost match starts at `m.start`. */
  ghost predicate IsLeftmostMatch(s: string, m: IdMatch)
  {
    MatchAt(s, m.start) == Some(m) && forall j :: 0 <= j < m.start ==> !MatchesAt(s, j)
  }

  /** The search finds the leftmost match, and finds nothing only when the pattern
      matches nowhere. */
  lemma {:induction false} FindMatchIsLeftmost(s: string, from: nat)
    ensures FindMatch(s, from).Some? ==>
      forall j :: from <= j < FindMatch(s, from).value.start ==> !MatchesAt(s, j)
    ensures FindMatch(s, from).None? ==> forall j :: from <= j ==> !MatchesAt(s, j)
    decreases |s| - from
  {
    if from >= |s| {
      forall j | from <= j ensures !MatchesAt(s, j) {
        MatchesAtIff(s, j);
      }
    } else {
      MatchesAtIff(s, from);
      if MatchAt(s, from).None? {
        FindMatchIsLeftmost(s, from + 1);
      }
    }
  }

  /** The id a match yields: the prefix upper-cased, the hyphen dropped, every digit kept. */
  function IdOf(s: string, m: IdMatch): string
    requires m.End() <= |s|
  {
    Upper(s[m.start..m.start + 2 + m.letters]) + s[m.DigitsStart()..m.End()]
  }

  predicate StartsWithHttp(s: string)
  {
    |s| >= 4 && s[..4] == "http"
  }

  /** A URL is searched as it is; anything else is searched with a blank on each side. */
  function SearchTarget(decoded: string): string
  {
    if StartsWithHttp(decoded) then decoded else " " + decoded + " "
  }

  /** extractItemOrProductId. `decodeURIComponent` is the identity on the '%'-free
      input the model admits. */
  function ExtractItemOrProductId(raw: string): (r: Result<string>)
    requires '%' !in raw
    ensures Trim(raw) == "" ==> r == Err(BadRequest)
    ensures r.Err? ==> r.error == BadRequest
    ensures r.Ok? ==> FindMatch(SearchTarget(Trim(raw)), 0).Some?
  {
    var trimmed := Trim(raw);
    if trimmed == "" then Err(BadRequest)
    else
      var target := SearchTarget(trimmed);
      match FindMatch(target, 0)
      case None => Err(BadRequest)
      case Some(m) => Ok(IdOf(target, m))
  }

  /** Input that is empty or only blanks is refused with BadRequest. */
  lemma BlankIdIsBadRequest(raw: string)
    requires '%' !in raw
    requires forall i :: 0 <= i < |raw| ==> IsJsSpace(raw[i])
    ensures ExtractItemOrProductId(raw) == Err(BadRequest)
  {
    TrimFacts(raw);
  }

  /** The parser succeeds exactly when the trimmed input is not blank and the pattern
      matches somewhere in what is searched, and it then returns the id of the leftmost
      match; otherwise it fails with BadRequest. */
  lemma ExtractIsLeftmostMatch(raw: string)
    requires '%' !in raw
    ensures var target := SearchTarget(Trim(raw));
      && (ExtractItemOrProductId(raw).Ok? <==> Trim(raw) != "" && exists j :: MatchesAt(target, j))
      && (ExtractItemOrProductId(raw).Err? ==> ExtractItemOrProductId(raw).error == BadRequest)
      && (forall m :: Trim(raw) != "" && IsLeftmostMatch(target, m) ==>
            m.End() <= |target| && ExtractItemOrProductId(raw) == Ok(IdOf(target, m)))
  {
    var target := SearchTarget(Trim(raw));
    FindMatchIffMatches(target);
    forall m | Trim(raw) != "" && IsLeftmostMatch(target, m)
      ensures m.End() <= |target| && ExtractItemOrProductId(raw) == Ok(IdOf(target, m))
    {
      FindMatchFindsLeftmost(target, m);
    }
  }

  /** The search from the start finds something exactly when the pattern matches somewhere. */
  lemma FindMatchIffMatches(s: string)
    ensures FindMatch(s, 0).Some? <==> exists j :: MatchesAt(s, j)
  {
    FindMatchIsLeftmost(s, 0);
    if FindMatch(s, 0).Some? {
      MatchesAtIff(s, FindMatch(s, 0).value.start);
    }
  }

  /** The search from the start reports the leftmost match. */
  lemma FindMatchFindsLeftmost(s: string, m: IdMatch)
    requires IsLeftmostMatch(s, m)
    ensures FindMatch(s, 0) == Some(m)
  {
    FindMatchIsLeftmost(s, 0);
    MatchesAtIff(s, m.start);
    if FindMatch(s, 0).Some? {
      MatchesAtIff(s, FindMatch(s, 0).value.start);
    }
  }

  /** The ids the parser returns: `ML`, at most two upper-case letters, five digits or more. */
  predicate IsCanonicalId(id: string)
  {
    && |id| >= 2 && id[0] == 'M' && id[1] == 'L'
    && var k := RunLength(id, 2, IsAsciiUpper);
       && k <= 2 && |id| - 2 - k >= 5
       && forall j :: 2 + k <= j < |id| ==> IsDigit(id[j])
  }

  /** A run of `n` characters satisfying `p` that ends where `p` fails is the run. */
  lemma {:induction false} RunLengthIs(s: string, i: nat, p: char -> bool, n: nat)
    requires i + n <= |s|
    requires forall j :: i <= j < i + n ==> p(s[j])
    requires i + n == |s| || !p(s[i + n])
    ensures RunLength(s, i, p) == n
    decreases n
  {
    if n > 0 {
      RunLengthIs(s, i + 1, p, n - 1);
    }
  }

  /** `ML`, up to two upper-case letters, then five digits or more, is canonical. */
  lemma CanonicalFromParts(prefix: string, digits: string)
    requires 2 <= |prefix| <= 4 && prefix[0] == 'M' && prefix[1] == 'L'
    requires forall j :: 2 <= j < |prefix| ==> IsAsciiUpper(prefix[j])
    requires |digits| >= 5 && forall j :: 0 <= j < |digits| ==> IsDigit(digits[j])
    ensures IsCanonicalId(prefix + digits)
  {
    var id := prefix + digits;
    RunLengthIs(id, 2, IsAsciiUpper, |prefix| - 2);
  }

  /** The id of any match is canonical. */
  lemma IdOfIsCanonical(s: string, m: IdMatch)
    requires MatchAt(s, m.start) == Some(m)
    ensures IsCanonicalId(IdOf(s, m))
  {
    MatchAtSound(s, m.start);
    MatchedPrefix(s, m);
    var prefix := Upper(s[m.start..m.start + 2 + m.letters]);
    var digits := s[m.DigitsStart()..m.End()];
    SliceOfDigits(s, m.DigitsStart(), m.End());
    CanonicalFromParts(prefix, digits);
    assert IdOf(s, m) == prefix + digits;
  }

  /** A slice of digits holds only digits. */
  lemma SliceOfDigits(s: string, from: nat, to: nat)
    requires from <= to <= |s|
    requires forall j :: from <= j < to ==> IsDigit(s[j])
    ensures forall j :: 0 <= j < to - from ==> IsDigit(s[from..to][j])
  {
  }

  /** The upper-cased prefix of a match is `ML` followed by upper-case letters. */
  lemma MatchedPrefix(s: string, m: IdMatch)
    requires m.letters <= 2 && m.start + 2 + m.letters <= |s|
    requires MlAt(s, m.start)
    requires forall j :: m.start + 2 <= j < m.start + 2 + m.letters ==> IsAsciiLetter(s[j])
    ensures var prefix := Upper(s[m.start..m.start + 2 + m.letters]);
      && 2 <= |prefix| <= 4 && prefix[0] == 'M' && prefix[1] == 'L'
      && forall j :: 2 <= j < |prefix| ==> IsAsciiUpper(prefix[j])
  {
    var slice := s[m.start..m.start + 2 + m.letters];
    forall j | 2 <= j < |slice| ensures IsAsciiUpper(UpperChar(slice[j])) {
      assert slice[j] == s[m.start + j];
    }
  }

  /** Every id the parser returns is canonical. */
  lemma ExtractedIdIsCanonical(raw: string)
    requires '%' !in raw
    requires ExtractItemOrProductId(raw).Ok?
    ensures IsCanonicalId(ExtractItemOrProductId(raw).value)
  {
    var target := SearchTarget(Trim(raw));
    IdOfIsCanonical(target, FindMatch(target, 0).value);
  }

  /** In a canonical id padded with blanks, the pattern matches at 1 and takes the
      whole id. */
  lemma PaddedCanonicalMatch(id: string)
    requires IsCanonicalId(id)
    ensures var k := RunLength(id, 2, IsAsciiUpper);
      MatchAt(" " + id + " ", 1) == Some(IdMatch(1, k, false, |id| - 2 - k))
  {
    var k := RunLength(id, 2, IsAsciiUpper);
    PaddedRuns(id, k, |id| - 2 - k);
  }

  /** The runs the engine measures in a padded canonical id: `k` letters after `ML`,
      then `n` digits up to the closing blank. */
  lemma PaddedRuns(id: string, k: nat, n: nat)
    requires |id| == 2 + k + n && n >= 5
    requires id[0] == 'M' && id[1] == 'L'
    requires forall j :: 2 <= j < 2 + k ==> IsAsciiUpper(id[j])
    requires forall j :: 2 + k <= j < |id| ==> IsDigit(id[j])
    ensures var target := " " + id + " ";
      && MlAt(target, 1) && IsDigit(target[3 + k])
      && RunLength(target, 3, IsAsciiLetter) == k
      && RunLength(target, 3 + k, IsDigit) == n
  {
    var target := " " + id + " ";
    assert |target| == |id| + 2;
    assert forall j :: 1 <= j < 1 + |id| ==> target[j] == id[j - 1];
    assert target[1] == id[0] && target[2] == id[1];
    forall j | 3 <= j < 3 + k ensures IsAsciiLetter(target[j]) {
      assert IsAsciiUpper(id[j - 1]);
    }
    assert target[3 + k] == id[2 + k];
    RunLengthIs(target, 3, IsAsciiLetter, k);
    forall j | 3 + k <= j < 3 + k + n ensures IsDigit(target[j]) {
      assert target[j] == id[j - 1];
    }
    assert target[3 + k + n] == ' ';
    RunLengthIs(target, 3 + k, IsDigit, n);
  }

  /** Upper-casing leaves a string of upper-case letters unchanged. */
  lemma UpperOfUpper(t: string)
    requires forall j :: 0 <= j < |t| ==> IsAsciiUpper(t[j])
    ensures Upper(t) == t
  {
  }

  /** When the first `2 + k` characters are upper-case letters, the id the match over
      the padded string yields is the string itself. */
  lemma PaddedId(id: string, k: nat)
    requires 2 + k <= |id|
    requires forall j :: 0 <= j < 2 + k ==> IsAsciiUpper(id[j])
    ensures IdOf(" " + id + " ", IdMatch(1, k, false, |id| - 2 - k)) == id
  {
    var target := " " + id + " ";
    var prefix := id[..2 + k];
    assert target[1..1 + |id|] == id;
    assert target[1..3 + k] == prefix;
    UpperOfUpper(prefix);
    assert target[3 + k..1 + |id|] == id[2 + k..];
    assert prefix + id[2 + k..] == id;
  }

  /** A canonical id parses to itself. */
  lemma CanonicalIdParsesToItself(id: string)
    requires IsCanonicalId(id)
    ensures '%' !in id
    ensures ExtractItemOrProductId(id) == Ok(id)
  {
    var k := RunLength(id, 2, IsAsciiUpper);
    CanonicalIdIsPlain(id, k);
    TrimUnchanged(id);
    PaddedCanonicalMatch(id);
    PaddedId(id, k);
    PaddedSearch(id);
  }

  /** A string starting with `M` is no URL, and with a blank in front the search
      starts at position 1. */
  lemma PaddedSearch(id: string)
    requires |id| > 0 && id[0] == 'M'
    ensures !StartsWithHttp(id)
    ensures FindMatch(" " + id + " ", 0) == FindMatch(" " + id + " ", 1)
  {
    assert !StartsWithHttp(id) by {
      if |id| >= 4 { assert id[..4][0] != 'h'; }
    }
    assert !MlAt(" " + id + " ", 0);
  }

  /** No character of a canonical id is `%` or a blank, and its first `2 + k`
      characters are upper-case letters. */
  lemma CanonicalIdIsPlain(id: string, k: nat)
    requires IsCanonicalId(id) && k == RunLength(id, 2, IsAsciiUpper)
    ensures 2 + k + 5 <= |id|
    ensures forall j :: 0 <= j < |id| ==> id[j] != '%' && !IsJsSpace(id[j])
    ensures forall j :: 0 <= j < 2 + k ==> IsAsciiUpper(id[j])
  {
    forall j | 0 <= j < |id| ensures id[j] != '%' && !IsJsSpace(id[j]) {
      if 2 <= j < 2 + k { assert IsAsciiUpper(id[j]); }
    }
  }

  /** Parsing is idempotent: re-parsing an extracted id gives it back unchanged. */
  lemma ExtractIsIdempotent(raw: string)
    requires '%' !in raw
    requires ExtractItemOrProductId(raw).Ok?
    ensures var id := ExtractItemOrProductId(raw).value;
      '%' !in id && ExtractItemOrProductId(id) == Ok(id)
  {
    ExtractedIdIsCanonical(raw);
    CanonicalIdParsesToItself(ExtractItemOrProductId(raw).value);
  }

  /** A bare id parses to itself. */
  lemma BareIdExample()
    ensures ExtractItemOrProductId("MLA123456789") == Ok("MLA123456789")
  {
    var id := "MLA123456789";
    RunLengthIs(id, 2, IsAsciiUpper, 1);
    CanonicalIdParsesToItself(id);
  }

  /** An id with fewer than five digits is refused. */
  lemma ShortIdExample()
    ensures ExtractItemOrProductId("MLA1234") == Err(BadRequest)
  {
    ShortIdRejected("MLA1234");
  }

  lemma ShortIdRejected(short: string)
    requires short == "MLA1234"
    ensures '%' !in short && ExtractItemOrProductId(short) == Err(BadRequest)
  {
    TrimUnchanged(short);
    assert SearchTarget(Trim(short)) == " " + short + " ";
    PaddedShortIdHasNoMatch(short);
  }

  /** The search over the padded short id finds nothing: the only `ML` is followed by
      one letter and four digits. */
  lemma PaddedShortIdHasNoMatch(short: string)
    requires short == "MLA1234"
    ensures FindMatch(" " + short + " ", 0) == None
  {
    var target := " " + short + " ";
    RunLengthIs(target, 3, IsAsciiLetter, 1);
    RunLengthIs(target, 4, IsDigit, 4);
    assert MatchAt(target, 1) == None;
    forall j: nat | j != 1 ensures MatchAt(target, j) == None {
      assert !MlAt(target, j);
    }
    assert FindMatch(target, 0) == None;
  }
}
