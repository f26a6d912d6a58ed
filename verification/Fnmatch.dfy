/** Wildcard matching of one path component in OS/2 and DOS style, and of whole paths. */
module Fnmatch {

  datatype Flags = Flags(dos: bool, ignoreCase: bool, pathPrefix: bool)

  const NUL: char := 0 as char

  ghost predicate IsSep(c: char) {
    c == '/' || c == '\\'
  }

  ghost predicate IsEnd(c: char) {
    c == NUL || IsSep(c)
  }

  function Lower(c: char): char {
    if 'A' <= c <= 'Z' then c + 'a' - 'A' else c
  }

  /** A string of the source: characters up to a terminating zero. */
  predicate CString(s: seq<char>) {
    s != [] && s[|s| - 1] == NUL && forall i | 0 <= i < |s| - 1 :: s[i] != NUL
  }

  /** Where the component that i is in ends. */
  ghost function CompEnd(s: seq<char>, i: nat): (e: nat)
    requires CString(s) && i < |s|
    ensures i <= e < |s| && IsEnd(s[e]) && forall k | i <= k < e :: !IsEnd(s[k])
    decreases |s| - i
  {
    if IsEnd(s[i]) then i else CompEnd(s, i + 1)
  }

  // ----- what matching means

  /** The same letter in upper and in lower case. */
  ghost predicate OtherCase(upper: char, lower: char) {
    'A' <= upper <= 'Z' && lower as int == upper as int + 32
  }

  ghost predicate SameChar(m: char, c: char, f: Flags) {
    m == c || (f.ignoreCase && (OtherCase(m, c) || OtherCase(c, m)))
  }

  /** What one character of the mask may stand for, given what follows it in the name: a star any
      characters, in DOS style no dots; a question mark one character that is no dot, or
      nothing at the end or before a dot; a dot a dot, or nothing at the end of a name without
      dots; anything else itself. */
  ghost predicate Stands(m: char, part: seq<char>, rest: seq<char>, f: Flags, hasDot: bool) {
    match m
    case '*' => f.dos ==> '.' !in part
    case '?' => if part == [] then rest == [] || rest[0] == '.' else |part| == 1 && part[0] != '.'
    case '.' => part == "." || (part == [] && rest == [] && !hasDot)
    case _ => |part| == 1 && SameChar(m, part[0], f)
  }

  function Join(parts: seq<seq<char>>): seq<char> {
    if parts == [] then [] else parts[0] + Join(parts[1..])
  }

  /** Each mask character stands for its part of the name. */
  ghost predicate Fits(mask: seq<char>, parts: seq<seq<char>>, f: Flags, hasDot: bool) {
    |parts| == |mask| && forall k | 0 <= k < |mask| :: Stands(mask[k], parts[k], Join(parts[k + 1..]), f, hasDot)
  }

  /** The name can be cut into parts, one for each mask character. */
  ghost predicate Matches(mask: seq<char>, name: seq<char>, f: Flags, hasDot: bool) {
    exists parts: seq<seq<char>> :: Join(parts) == name && Fits(mask, parts, f, hasDot)
  }

  // ----- the same, one character at a time

  ghost predicate Steps(mask: seq<char>, name: seq<char>, f: Flags, hasDot: bool)
    decreases mask
  {
    if mask == [] then name == []
    else exists k :: 0 <= k <= |name| && Stands(mask[0], name[..k], name[k..], f, hasDot) && Steps(mask[1..], name[k..], f, hasDot)
  }

  lemma {:induction false} StepsMatches(mask: seq<char>, name: seq<char>, f: Flags, hasDot: bool)
    requires Steps(mask, name, f, hasDot)
    ensures Matches(mask, name, f, hasDot)
  {
    hide Fits, Stands, Join;
    if mask == [] {
      FitsNone(f, hasDot);
    } else {
      var k :| 0 <= k <= |name| && Stands(mask[0], name[..k], name[k..], f, hasDot) && Steps(mask[1..], name[k..], f, hasDot);
      StepsMatches(mask[1..], name[k..], f, hasDot);
      var parts :| Join(parts) == name[k..] && Fits(mask[1..], parts, f, hasDot);
      assert name == name[..k] + name[k..];
      FitsMore(mask, name[..k], parts, f, hasDot);
    }
  }

  lemma FitsNone(f: Flags, hasDot: bool)
    ensures Matches([], [], f, hasDot)
  {
    assert Join([]) == [] && Fits([], [], f, hasDot);
  }

  lemma FitsMore(mask: seq<char>, part: seq<char>, parts: seq<seq<char>>, f: Flags, hasDot: bool)
    requires mask != [] && Fits(mask[1..], parts, f, hasDot) && Stands(mask[0], part, Join(parts), f, hasDot)
    ensures Matches(mask, part + Join(parts), f, hasDot)
  {
    hide Stands;
    var all := [part] + parts;
    assert all[1..] == parts;
    forall i | 0 <= i < |mask|
      ensures Stands(mask[i], all[i], Join(all[i + 1..]), f, hasDot)
    {
      if i > 0 {
        assert all[i + 1..] == parts[i..] && all[i] == parts[i - 1] && mask[i] == mask[1..][i - 1];
      }
    }
    assert Join(all) == part + Join(parts) && Fits(mask, all, f, hasDot);
  }

  lemma {:induction false} MatchesSteps(mask: seq<char>, parts: seq<seq<char>>, f: Flags, hasDot: bool)
    requires Fits(mask, parts, f, hasDot)
    ensures Steps(mask, Join(parts), f, hasDot)
    decreases mask
  {
    if mask != [] {
      var name, k := Join(parts), |parts[0]|;
      assert name[..k] == parts[0] && name[k..] == Join(parts[1..]);
      forall i | 0 <= i < |mask[1..]|
        ensures Stands(mask[1..][i], parts[1..][i], Join(parts[1..][i + 1..]), f, hasDot)
      {
        assert parts[1..][i + 1..] == parts[i + 2..];
        assert Stands(mask[i + 1], parts[i + 1], Join(parts[i + 2..]), f, hasDot);
      }
      MatchesSteps(mask[1..], parts[1..], f, hasDot);
    }
  }

  lemma StepsIffMatches(mask: seq<char>, name: seq<char>, f: Flags, hasDot: bool)
    ensures Steps(mask, name, f, hasDot) <==> Matches(mask, name, f, hasDot)
  {
    if Steps(mask, name, f, hasDot) {
      StepsMatches(mask, name, f, hasDot);
    }
    if Matches(mask, name, f, hasDot) {
      var parts :| Join(parts) == name && Fits(mask, parts, f, hasDot);
      MatchesSteps(mask, parts, f, hasDot);
    }
  }

  /** How the ends of the two components must agree. */
  ghost predicate EndsAgree(mask: seq<char>, m: nat, name: seq<char>, n: nat, f: Flags)
    requires m < |mask| && n < |name|
  {
    if mask[m] == NUL then name[n] == NUL || (f.pathPrefix && IsSep(name[n]))
    else IsSep(name[n]) || (f.pathPrefix && m + 1 < |mask| && mask[m + 1] == NUL && name[n] == NUL)
  }

  /** From m and n on, the rest of the mask's component matches the rest of the name's. */
  ghost predicate CompMatches(mask: seq<char>, m: nat, name: seq<char>, n: nat, f: Flags, hasDot: bool)
    requires CString(mask) && CString(name) && m < |mask| && n < |name|
  {
    && Steps(Rest(mask, m), Rest(name, n), f, hasDot)
    && EndsAgree(mask, CompEnd(mask, m), name, CompEnd(name, n), f)
  }

  /** What is left of the name's component. */
  ghost function Rest(name: seq<char>, n: nat): seq<char>
    requires CString(name) && n < |name|
  {
    name[n..CompEnd(name, n)]
  }

  lemma RestNext(name: seq<char>, n: nat)
    requires CString(name) && n < |name| && !IsEnd(name[n])
    ensures n + 1 < |name| && Rest(name, n) == [name[n]] + Rest(name, n + 1) && CompEnd(name, n + 1) == CompEnd(name, n)
  {
  }

  lemma RestEmpty(name: seq<char>, n: nat)
    requires CString(name) && n < |name|
    ensures Rest(name, n) == [] <==> IsEnd(name[n])
    ensures IsEnd(name[n]) ==> CompEnd(name, n) == n
    ensures !IsEnd(name[n]) ==> Rest(name, n)[0] == name[n]
  {
  }

  /** A mask character that stands for exactly the next character, or for nothing. */
  lemma OneStep(c: char, mask: seq<char>, name: seq<char>, k: nat, f: Flags, hasDot: bool)
    requires k <= |name| && Stands(c, name[..k], name[k..], f, hasDot)
    requires forall j | 0 <= j <= |name| && Stands(c, name[..j], name[j..], f, hasDot) :: j == k
    ensures Steps([c] + mask, name, f, hasDot) <==> Steps(mask, name[k..], f, hasDot)
  {
    assert ([c] + mask)[0] == c && ([c] + mask)[1..] == mask;
  }

  lemma NoStep(c: char, mask: seq<char>, name: seq<char>, f: Flags, hasDot: bool)
    requires forall j | 0 <= j <= |name| :: !Stands(c, name[..j], name[j..], f, hasDot)
    ensures !Steps([c] + mask, name, f, hasDot)
  {
    assert ([c] + mask)[0] == c;
  }

  lemma Question(mask: seq<char>, name: seq<char>, f: Flags, hasDot: bool)
    ensures Steps("?" + mask, name, f, hasDot) <==>
            Steps(mask, if name != [] && name[0] != '.' then name[1..] else name, f, hasDot)
  {
    var k := if name != [] && name[0] != '.' then 1 else 0;
    assert name[0..] == name;
    OneStep('?', mask, name, k, f, hasDot);
  }

  lemma Dot(mask: seq<char>, name: seq<char>, f: Flags, hasDot: bool)
    ensures Steps("." + mask, name, f, hasDot) <==>
            (name != [] && name[0] == '.' && Steps(mask, name[1..], f, hasDot))
            || (name == [] && !hasDot && Steps(mask, name, f, hasDot))
  {
    assert name[0..] == name && name[..0] == [];
    if name != [] && name[0] == '.' {
      assert name[..1] == ".";
      OneStep('.', mask, name, 1, f, hasDot);
    } else if name == [] && !hasDot {
      OneStep('.', mask, name, 0, f, hasDot);
    } else {
      NoStep('.', mask, name, f, hasDot);
    }
  }

  lemma Other(c: char, mask: seq<char>, name: seq<char>, f: Flags, hasDot: bool)
    requires c != '*' && c != '?' && c != '.'
    ensures Steps([c] + mask, name, f, hasDot) <==>
            name != [] && SameChar(c, name[0], f) && Steps(mask, name[1..], f, hasDot)
  {
    if name != [] && SameChar(c, name[0], f) {
      assert name[..1] == [name[0]];
      OneStep(c, mask, name, 1, f, hasDot);
    } else {
      NoStep(c, mask, name, f, hasDot);
    }
  }

  ghost predicate SkipOk(mask: seq<char>, name: seq<char>, k: int, f: Flags, hasDot: bool) {
    0 <= k <= |name| && (f.dos ==> '.' !in name[..k]) && Steps(mask, name[k..], f, hasDot)
  }

  /** A star in front: skip some characters, in DOS style no dots. */
  lemma Star(mask: seq<char>, name: seq<char>, f: Flags, hasDot: bool)
    ensures Steps("*" + mask, name, f, hasDot) <==> exists k :: SkipOk(mask, name, k, f, hasDot)
  {
    assert ("*" + mask)[0] == '*' && ("*" + mask)[1..] == mask;
    if Steps("*" + mask, name, f, hasDot) {
      var k :| 0 <= k <= |name| && Stands('*', name[..k], name[k..], f, hasDot) && Steps(mask, name[k..], f, hasDot);
      assert SkipOk(mask, name, k, f, hasDot);
    }
    if k :| SkipOk(mask, name, k, f, hasDot) {
      assert Stands('*', name[..k], name[k..], f, hasDot);
    }
  }

  lemma Skip(mask: seq<char>, name: seq<char>, f: Flags, hasDot: bool) returns (k: nat)
    requires Steps("*" + mask, name, f, hasDot)
    ensures SkipOk(mask, name, k, f, hasDot) && k <= |name|
  {
    hide Steps;
    Star(mask, name, f, hasDot);
    k :| SkipOk(mask, name, k, f, hasDot);
  }

  /** Another star adds nothing. */
  lemma TwoStars(mask: seq<char>, name: seq<char>, f: Flags, hasDot: bool)
    ensures Steps("**" + mask, name, f, hasDot) <==> Steps("*" + mask, name, f, hasDot)
  {
    assert "**" + mask == "*" + ("*" + mask);
    Star("*" + mask, name, f, hasDot);
    Star(mask, name, f, hasDot);
    if Steps("**" + mask, name, f, hasDot) {
      var k :| SkipOk("*" + mask, name, k, f, hasDot);
      Star(mask, name[k..], f, hasDot);
      var j :| SkipOk(mask, name[k..], j, f, hasDot);
      assert name[k..][j..] == name[k + j..] && name[..k + j] == name[..k] + name[k..][..j];
      assert SkipOk(mask, name, k + j, f, hasDot);
    }
    if Steps("*" + mask, name, f, hasDot) {
      assert name[0..] == name && name[..0] == [];
      assert SkipOk("*" + mask, name, 0, f, hasDot);
    }
  }

  // ----- one step of the loop

  lemma EndStep(mask: seq<char>, m: nat, name: seq<char>, n: nat, f: Flags, hasDot: bool)
    requires CString(mask) && CString(name) && m < |mask| && n < |name| && IsEnd(mask[m])
    ensures CompMatches(mask, m, name, n, f, hasDot) <==> IsEnd(name[n]) && EndsAgree(mask, m, name, n, f)
  {
    RestEmpty(mask, m);
    RestEmpty(name, n);
  }

  lemma QuestionStep(mask: seq<char>, m: nat, name: seq<char>, n: nat, f: Flags, hasDot: bool)
    requires CString(mask) && CString(name) && m < |mask| && n < |name| && mask[m] == '?'
    ensures m + 1 < |mask| && (!IsEnd(name[n]) ==> n + 1 < |name| && CompEnd(name, n + 1) == CompEnd(name, n))
    ensures CompMatches(mask, m, name, n, f, hasDot) <==>
            CompMatches(mask, m + 1, name, if !IsEnd(name[n]) && name[n] != '.' then n + 1 else n, f, hasDot)
  {
    hide Steps, EndsAgree;
    RestNext(mask, m);
    Question(Rest(mask, m + 1), Rest(name, n), f, hasDot);
    RestEmpty(name, n);
    if !IsEnd(name[n]) {
      RestNext(name, n);
      assert Rest(name, n)[1..] == Rest(name, n + 1);
    }
  }

  lemma DotStep(mask: seq<char>, m: nat, name: seq<char>, n: nat, f: Flags, hasDot: bool)
    requires CString(mask) && CString(name) && m < |mask| && n < |name| && mask[m] == '.'
    ensures m + 1 < |mask| && (!IsEnd(name[n]) ==> n + 1 < |name| && CompEnd(name, n + 1) == CompEnd(name, n))
    ensures name[n] == '.' ==> (CompMatches(mask, m, name, n, f, hasDot) <==> CompMatches(mask, m + 1, name, n + 1, f, hasDot))
    ensures name[n] != '.' && !hasDot && IsEnd(name[n]) ==>
              (CompMatches(mask, m, name, n, f, hasDot) <==> CompMatches(mask, m + 1, name, n, f, hasDot))
    ensures name[n] != '.' && (hasDot || !IsEnd(name[n])) ==> !CompMatches(mask, m, name, n, f, hasDot)
  {
    hide Steps, EndsAgree;
    RestNext(mask, m);
    Dot(Rest(mask, m + 1), Rest(name, n), f, hasDot);
    RestEmpty(name, n);
    if !IsEnd(name[n]) {
      RestNext(name, n);
      assert Rest(name, n)[1..] == Rest(name, n + 1);
    }
  }

  lemma OtherStep(mask: seq<char>, m: nat, name: seq<char>, n: nat, f: Flags, hasDot: bool)
    requires CString(mask) && CString(name) && m < |mask| && n < |name|
    requires !IsEnd(mask[m]) && mask[m] != '*' && mask[m] != '?' && mask[m] != '.'
    ensures m + 1 < |mask|
    ensures SameChar(mask[m], name[n], f) ==>
              && n + 1 < |name| && CompEnd(name, n + 1) == CompEnd(name, n)
              && (CompMatches(mask, m, name, n, f, hasDot) <==> CompMatches(mask, m + 1, name, n + 1, f, hasDot))
    ensures !SameChar(mask[m], name[n], f) ==> !CompMatches(mask, m, name, n, f, hasDot)
  {
    hide Steps, EndsAgree;
    RestNext(mask, m);
    Other(mask[m], Rest(mask, m + 1), Rest(name, n), f, hasDot);
    RestEmpty(name, n);
    if !IsEnd(name[n]) {
      RestNext(name, n);
      assert Rest(name, n)[1..] == Rest(name, n + 1);
    }
  }

  lemma StarsStep(mask: seq<char>, m: nat, name: seq<char>, n: nat, f: Flags, hasDot: bool)
    requires CString(mask) && CString(name) && m + 1 < |mask| && n < |name| && mask[m] == '*' && mask[m + 1] == '*'
    ensures CompMatches(mask, m, name, n, f, hasDot) <==> CompMatches(mask, m + 1, name, n, f, hasDot)
  {
    hide Steps, EndsAgree;
    RestNext(mask, m);
    RestNext(mask, m + 1);
    assert Rest(mask, m) == "**" + Rest(mask, m + 2);
    TwoStars(Rest(mask, m + 2), Rest(name, n), f, hasDot);
  }

  /** The name from n up to k may be skipped by a star, and the rest matches. */
  ghost predicate SkipsTo(mask: seq<char>, m: nat, name: seq<char>, n: nat, k: nat, f: Flags, hasDot: bool)
    requires CString(mask) && CString(name) && m < |mask| && n <= k < |name|
  {
    (f.dos ==> '.' !in name[n..k]) && CompMatches(mask, m, name, k, f, hasDot)
  }

  lemma CompEndFrom(name: seq<char>, n: nat, k: nat)
    requires CString(name) && n <= k < |name| && k <= CompEnd(name, n)
    ensures CompEnd(name, k) == CompEnd(name, n) && Rest(name, n)[k - n..] == Rest(name, k) && Rest(name, n)[..k - n] == name[n..k]
    decreases k - n
  {
    hide Rest;
    if n < k {
      NotEndYet(name, n, k);
      RestNext(name, n);
      CompEndFrom(name, n + 1, k);
      assert name[n..k] == [name[n]] + name[n + 1..k];
      RestLength(name, n + 1);
      RestSplit([name[n]], Rest(name, n + 1), k - n - 1);
    } else {
      RestWhole(Rest(name, n));
    }
  }

  lemma NotEndYet(name: seq<char>, n: nat, k: nat)
    requires CString(name) && n < k < |name| && k <= CompEnd(name, n)
    ensures !IsEnd(name[n])
  {
  }

  lemma RestSplit(p: seq<char>, q: seq<char>, j: nat)
    requires |p| == 1 && j <= |q|
    ensures (p + q)[j + 1..] == q[j..] && (p + q)[..j + 1] == p + q[..j]
  {
  }

  lemma RestWhole(q: seq<char>)
    ensures q[0..] == q && q[..0] == []
  {
  }

  lemma StarStep(mask: seq<char>, m: nat, next: nat, name: seq<char>, n: nat, f: Flags, hasDot: bool)
    requires CString(mask) && CString(name) && m < |mask| && n < |name| && mask[m] == '*' && next == m + 1
    ensures next < |mask|
    ensures CompMatches(mask, m, name, n, f, hasDot) <==>
            exists k :: n <= k <= CompEnd(name, n) && SkipsTo(mask, next, name, n, k, f, hasDot)
  {
    hide Steps, EndsAgree, SkipsTo, Rest;
    RestNext(mask, m);
    if CompMatches(mask, m, name, n, f, hasDot) {
      StarSkips(mask, m, next, name, n, f, hasDot);
    }
    if k :| n <= k <= CompEnd(name, n) && SkipsTo(mask, next, name, n, k, f, hasDot) {
      SkippedStar(mask, m, next, name, n, k, f, hasDot);
    }
  }

  lemma StarSkips(mask: seq<char>, m: nat, next: nat, name: seq<char>, n: nat, f: Flags, hasDot: bool)
    requires CString(mask) && CString(name) && m < |mask| && n < |name| && mask[m] == '*' && next == m + 1 < |mask|
    requires CompMatches(mask, m, name, n, f, hasDot)
    ensures exists k :: n <= k <= CompEnd(name, n) && SkipsTo(mask, next, name, n, k, f, hasDot)
  {
    hide Steps, EndsAgree, SkipsTo, Rest, CompEnd;
    RestNext(mask, m);
    RestLength(name, n);
    var j := Skip(Rest(mask, next), Rest(name, n), f, hasDot);
    Skipped(mask, next, name, n, n + j, f, hasDot);
  }

  lemma SkippedStar(mask: seq<char>, m: nat, next: nat, name: seq<char>, n: nat, k: nat, f: Flags, hasDot: bool)
    requires CString(mask) && CString(name) && m < |mask| && n < |name| && mask[m] == '*' && next == m + 1 < |mask|
    requires n <= k <= CompEnd(name, n) && SkipsTo(mask, next, name, n, k, f, hasDot)
    ensures CompMatches(mask, m, name, n, f, hasDot)
  {
    hide Steps, EndsAgree, SkipsTo, Rest;
    RestNext(mask, m);
    var rest := Rest(name, n);
    RestLength(name, n);
    Star(Rest(mask, next), rest, f, hasDot);
    Skipped(mask, next, name, n, k, f, hasDot);
    assert SkipOk(Rest(mask, next), rest, k - n, f, hasDot);
  }

  lemma RestLength(name: seq<char>, n: nat)
    requires CString(name) && n < |name|
    ensures |Rest(name, n)| == CompEnd(name, n) - n
  {
  }

  lemma Skipped(mask: seq<char>, m: nat, name: seq<char>, n: nat, k: nat, f: Flags, hasDot: bool)
    requires CString(mask) && CString(name) && m < |mask| && n <= k < |name| && k <= CompEnd(name, n)
    ensures |Rest(name, n)| == CompEnd(name, n) - n
    ensures SkipsTo(mask, m, name, n, k, f, hasDot) <==>
              && (f.dos ==> '.' !in Rest(name, n)[..k - n]) && Steps(Rest(mask, m), Rest(name, n)[k - n..], f, hasDot)
              && EndsAgree(mask, CompEnd(mask, m), name, CompEnd(name, n), f)
  {
    hide Steps, EndsAgree;
    CompEndFrom(name, n, k);
  }

  /** match_comp_os2: compares one component, recursing only to try what a star may skip. It
      reads neither string past the end of the component. */
  method MatchComp(mask: seq<char>, m0: nat, name: seq<char>, n0: nat, f: Flags, hasDot: bool) returns (r: bool)
    requires CString(mask) && CString(name) && m0 < |mask| && n0 < |name|
    ensures r <==> CompMatches(mask, m0, name, n0, f, hasDot)
    decreases |mask| - m0, 1
  {
    hide Steps, CompMatches;
    var m, n := m0, n0;
    while true
      invariant m0 <= m < |mask| && n0 <= n <= CompEnd(name, n0) < |name| && CompEnd(name, n) == CompEnd(name, n0)
      invariant CompMatches(mask, m, name, n, f, hasDot) <==> CompMatches(mask, m0, name, n0, f, hasDot)
      decreases |mask| - m
    {
      var sep := name[n] == '/' || name[n] == '\\';
      if mask[m] == NUL || mask[m] == '/' || mask[m] == '\\' {
        EndStep(mask, m, name, n, f, hasDot);
        if mask[m] == NUL {
          return name[n] == NUL || (f.pathPrefix && sep);
        }
        return sep || (f.pathPrefix && mask[m + 1] == NUL && name[n] == NUL);
      } else if mask[m] == '?' {
        QuestionStep(mask, m, name, n, f, hasDot);
        if name[n] != '.' && !(name[n] == NUL || sep) {
          n := n + 1;
        }
        m := m + 1;
      } else if mask[m] == '*' {
        r := MatchStar(mask, m, name, n, f, hasDot);
        return;
      } else if mask[m] == '.' {
        DotStep(mask, m, name, n, f, hasDot);
        m := m + 1;
        if name[n] == '.' {
          n := n + 1;
        } else if hasDot || !(name[n] == NUL || sep) {
          return false;
        }
      } else {
        OtherStep(mask, m, name, n, f, hasDot);
        if if f.ignoreCase then Lower(mask[m]) != Lower(name[n]) else mask[m] != name[n] {
          return false;
        }
        m, n := m + 1, n + 1;
      }
    }
  }

  /** The part of match_comp_os2 for stars. */
  method MatchStar(mask: seq<char>, m0: nat, name: seq<char>, n0: nat, f: Flags, hasDot: bool) returns (r: bool)
    requires CString(mask) && CString(name) && m0 < |mask| && n0 < |name| && mask[m0] == '*'
    ensures r <==> CompMatches(mask, m0, name, n0, f, hasDot)
    decreases |mask| - m0, 0
  {
    hide Steps, CompMatches;
    var m, n := m0 + 1, n0;
    while mask[m] == '*'
      invariant m0 < m < |mask| && mask[m - 1] == '*'
      invariant CompMatches(mask, m - 1, name, n0, f, hasDot) <==> CompMatches(mask, m0, name, n0, f, hasDot)
      decreases |mask| - m
    {
      StarsStep(mask, m - 1, name, n0, f, hasDot);
      m := m + 1;
    }
    StarStep(mask, m - 1, m, name, n0, f, hasDot);
    while true
      invariant n0 <= n <= CompEnd(name, n0) < |name| && CompEnd(name, n) == CompEnd(name, n0)
      invariant f.dos ==> '.' !in name[n0..n]
      invariant forall k | n0 <= k < n :: !SkipsTo(mask, m, name, n0, k, f, hasDot)
      decreases CompEnd(name, n0) - n
    {
      r := MatchComp(mask, m, name, n, f, hasDot);
      if r {
        assert SkipsTo(mask, m, name, n0, n, f, hasDot);
        return;
      }
      assert !SkipsTo(mask, m, name, n0, n, f, hasDot);
      if name[n] == NUL || name[n] == '/' || name[n] == '\\' {
        return false;
      }
      if name[n] == '.' && f.dos {
        forall k | n < k <= CompEnd(name, n0)
          ensures !SkipsTo(mask, m, name, n0, k, f, hasDot)
        {
          assert name[n0..k][n - n0] == '.';
        }
        return false;
      }
      RestNext(name, n);
      assert name[n0..n + 1] == name[n0..n] + [name[n]];
      n := n + 1;
    }
  }

  // ----- components and paths

  /** match_comp: a name without a dot has one implied at its end. */
  method MatchComponent(mask: seq<char>, m: nat, name: seq<char>, n: nat, f: Flags) returns (r: bool)
    requires CString(mask) && CString(name) && m < |mask| && n < |name|
    ensures r <==> CompMatches(mask, m, name, n, f, '.' in Rest(name, n))
  {
    hide CompMatches;
    var s := n;
    RestLength(name, n);
    while !(name[s] == NUL || name[s] == '/' || name[s] == '\\') && name[s] != '.'
      invariant n <= s <= CompEnd(name, n) && CompEnd(name, s) == CompEnd(name, n)
      invariant '.' !in name[n..s]
      decreases CompEnd(name, n) - s
    {
      RestNext(name, s);
      assert name[n..s + 1] == name[n..s] + [name[s]];
      s := s + 1;
    }
    if name[s] == '.' {
      NotPastEnd(name, n, s);
      assert Rest(name, n)[s - n] == '.';
    } else {
      RestEmpty(name, s);
      assert Rest(name, n) == name[n..s];
    }
    r := MatchComp(mask, m, name, n, f, name[s] == '.');
  }

  lemma NotPastEnd(name: seq<char>, n: nat, s: nat)
    requires CString(name) && n <= s < |name| && s <= CompEnd(name, n) && !IsEnd(name[s])
    ensures s < CompEnd(name, n)
  {
  }

  /** Where the next component starts; the end of the string stays where it is. */
  ghost function Next(s: seq<char>, i: nat): (j: nat)
    requires CString(s) && i < |s|
    ensures i <= j < |s| && (s[i] != NUL ==> i < j) && (s[i] == NUL ==> i == j)
  {
    var e := CompEnd(s, i);
    if s[e] == NUL then e else e + 1
  }

  method SkipComp(s: seq<char>, i: nat) returns (j: nat)
    requires CString(s) && i < |s|
    ensures j == Next(s, i)
  {
    j := i;
    while !(s[j] == NUL || s[j] == '/' || s[j] == '\\')
      invariant i <= j <= CompEnd(s, i) && CompEnd(s, j) == CompEnd(s, i)
      decreases CompEnd(s, i) - j
    {
      RestNext(s, j);
      j := j + 1;
    }
    RestEmpty(s, j);
    if s[j] != NUL {
      j := j + 1;
    }
  }

  /** The start of the k-th component from i on. */
  ghost function Nth(s: seq<char>, i: nat, k: nat): (j: nat)
    requires CString(s) && i < |s|
    ensures i <= j < |s|
  {
    if k == 0 then i else Next(s, Nth(s, i, k - 1))
  }

  lemma {:induction false} NthStays(s: seq<char>, i: nat, k: nat, l: nat)
    requires CString(s) && i < |s| && k <= l && s[Nth(s, i, k)] == NUL
    ensures Nth(s, i, l) == Nth(s, i, k)
    decreases l
  {
    if k < l {
      NthStays(s, i, k, l - 1);
    }
  }

  /** The k-th components agree, or the mask has ended and only a prefix has to match. */
  ghost predicate Agree(mask: seq<char>, m: nat, name: seq<char>, n: nat, k: nat, f: Flags)
    requires CString(mask) && CString(name) && m < |mask| && n < |name|
  {
    var i, j := Nth(mask, m, k), Nth(name, n, k);
    (f.pathPrefix && mask[i] == NUL) || CompMatches(mask, i, name, j, f, '.' in Rest(name, j))
  }

  lemma BothEnded(mask: seq<char>, m: nat, name: seq<char>, n: nat, k: nat, l: nat, f: Flags)
    requires CString(mask) && CString(name) && m < |mask| && n < |name| && k <= l
    requires mask[Nth(mask, m, k)] == NUL && (f.pathPrefix || name[Nth(name, n, k)] == NUL)
    ensures Agree(mask, m, name, n, l, f)
  {
    NthStays(mask, m, k, l);
    if name[Nth(name, n, k)] == NUL {
      NthStays(name, n, k, l);
      EndStep(mask, Nth(mask, m, l), name, Nth(name, n, l), f, '.' in Rest(name, Nth(name, n, l)));
    }
  }

  /** The loop over components: a path matches when every component of it does. */
  method MatchPath(mask: seq<char>, m0: nat, name: seq<char>, n0: nat, f: Flags) returns (r: bool)
    requires CString(mask) && CString(name) && m0 < |mask| && n0 < |name|
    ensures r <==> forall k: nat :: Agree(mask, m0, name, n0, k, f)
  {
    hide CompMatches;
    var m, n := m0, n0;
    ghost var k: nat := 0;
    while mask[m] != NUL || name[n] != NUL
      invariant m < |mask| && n < |name| && m == Nth(mask, m0, k) && n == Nth(name, n0, k)
      invariant forall l: nat | l < k :: Agree(mask, m0, name, n0, l, f)
      decreases |mask| - m + |name| - n
    {
      if mask[m] == NUL && f.pathPrefix {
        forall l: nat | l >= k
          ensures Agree(mask, m0, name, n0, l, f)
        {
          BothEnded(mask, m0, name, n0, k, l, f);
        }
        return true;
      }
      r := MatchComponent(mask, m, name, n, f);
      if !r {
        assert !Agree(mask, m0, name, n0, k, f);
        return;
      }
      m := SkipComp(mask, m);
      n := SkipComp(name, n);
      k := k + 1;
    }
    forall l: nat | l >= k
      ensures Agree(mask, m0, name, n0, l, f)
    {
      BothEnded(mask, m0, name, n0, k, l, f);
    }
    r := true;
  }
}
