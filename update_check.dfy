/**
 * The add-on's update check: which repository tags count as releases, which
 * of them is the latest, how it compares with the installed version, and what
 * the preferences hold afterwards.  The two HTTP requests, the JSON documents
 * and the clock are inputs: a `Fetch` value stands for both responses, the tag
 * and release lists are their `name` and `tag_name` fields, and `now` is
 * `time.time()` in whole seconds.
 */
module UpdateCheck {
  import opened PyStr

  // ---------------------------------------------------------------------------
  // rel_ver = re.compile(r"v[0-9]+\.[0-9]+\.[0-9]+$")
  // ---------------------------------------------------------------------------

  /** Three non-empty runs of ASCII digits separated by dots, and nothing else. */
  predicate DottedTriple(s: string)
  {
    var parts := Split(s, '.');
    |parts| == 3 && forall i :: 0 <= i < 3 ==> |parts[i]| > 0 && AllDigits(parts[i])
  }

  predicate VersionTag(s: string)
  {
    |s| > 0 && s[0] == 'v' && DottedTriple(s[1..])
  }

  /**
   * `rel_ver.match(s)`: anchored at the start by `match`; `$` accepts the end of
   * the string or a single newline that ends it.
   */
  predicate RelVer(s: string)
  {
    VersionTag(s) || (|s| > 0 && s[|s| - 1] == '\n' && VersionTag(s[..|s| - 1]))
  }

  predicate IsDigitRun(s: string) { |s| > 0 && AllDigits(s) }

  /** A matching tag is `v`, three digit runs joined by dots, and at most one newline. */
  lemma RelVerParts(s: string) returns (a: string, b: string, c: string, nl: string)
    requires RelVer(s)
    ensures IsDigitRun(a) && IsDigitRun(b) && IsDigitRun(c) && (nl == "" || nl == "\n")
    ensures s == "v" + Join([a, b, c], ".") + nl
  {
    var body := if VersionTag(s) then s else s[..|s| - 1];
    nl := if VersionTag(s) then "" else "\n";
    assert s == body + nl;
    var parts := Split(body[1..], '.');
    a, b, c := parts[0], parts[1], parts[2];
    assert parts == [a, b, c];
    JoinSplit(body[1..], '.');
    assert body == "v" + body[1..];
  }

  /** Every such string matches. */
  lemma RelVerOfParts(a: string, b: string, c: string, nl: string)
    requires IsDigitRun(a) && IsDigitRun(b) && IsDigitRun(c) && (nl == "" || nl == "\n")
    ensures RelVer("v" + Join([a, b, c], ".") + nl)
  {
    var parts := [a, b, c];
    DotFreeDigits(a);
    DotFreeDigits(b);
    DotFreeDigits(c);
    SplitJoin(parts, '.');
    var body := "v" + Join(parts, ".");
    assert body[1..] == Join(parts, ".");
    assert VersionTag(body);
    var s := body + nl;
    if nl == "\n" {
      assert s[..|s| - 1] == body && s[|s| - 1] == '\n';
    } else {
      assert s == body;
    }
  }

  lemma DotFreeDigits(s: string)
    requires AllDigits(s)
    ensures '.' !in s
  {
  }

  /** The tag shapes the releases use, with and without the newline `$` lets through. */
  lemma RelVerExamples()
    ensures RelVer("v1.2.3") && RelVer("v1.2.3\n")
    ensures !RelVer("1.2.3") && !RelVer("")
  {
    var tag := "v1.2.3";
    assert VersionTag(tag) by {
      assert Join(["1", "2", "3"], ".") == "1.2.3";
      RelVerOfParts("1", "2", "3", "");
      assert "v" + "1.2.3" + "" == tag;
      assert tag[|tag| - 1] == '3';
    }
    var line := tag + "\n";
    assert line[|line| - 1] == '\n' && line[..|line| - 1] == tag;
    assert line == "v1.2.3\n";
  }

  // ---------------------------------------------------------------------------
  // tuple(map(int, s.split('.')))
  // ---------------------------------------------------------------------------

  /** `tuple(map(f, parts))`: `f` on every part in order, or None when one of the calls raises. */
  function MapAll(f: string -> Option<int>, parts: seq<string>): Option<seq<int>>
  {
    if parts == [] then Some([])
    else
      match f(parts[0])
      case None => None
      case Some(n) =>
        match MapAll(f, parts[1..])
        case None => None
        case Some(rest) => Some([n] + rest)
  }

  /** The tuple exists exactly when every call succeeds, and then holds their values in order. */
  lemma {:induction false} MapAllMeaning(f: string -> Option<int>, parts: seq<string>)
    ensures MapAll(f, parts).Some? <==> forall i :: 0 <= i < |parts| ==> f(parts[i]).Some?
    ensures MapAll(f, parts).Some? ==>
      var v := MapAll(f, parts).value;
      |v| == |parts| && forall i :: 0 <= i < |parts| ==> v[i] == f(parts[i]).value
  {
    if parts != [] {
      var tail := parts[1..];
      MapAllMeaning(f, tail);
      assert forall i :: 1 <= i < |parts| ==> parts[i] == tail[i - 1];
      if f(parts[0]).Some? && MapAll(f, tail).Some? {
        var n, rest := f(parts[0]).value, MapAll(f, tail).value;
        assert MapAll(f, parts) == Some([n] + rest);
        assert forall i :: 1 <= i < |parts| ==> ([n] + rest)[i] == rest[i - 1];
      } else if f(parts[0]).Some? {
        var i :| 0 <= i < |tail| && f(tail[i]).None?;
        assert f(parts[i + 1]).None?;
      }
    }
  }

  /** `tuple(map(int, parts))`. */
  function ParseInts(parts: seq<string>): Option<seq<int>>
  {
    MapAll(PyInt, parts)
  }

  /** The parts parse exactly when each one does, and then to their values in order. */
  lemma ParseIntsMeaning(parts: seq<string>)
    ensures ParseInts(parts).Some? <==> forall i :: 0 <= i < |parts| ==> PyInt(parts[i]).Some?
    ensures ParseInts(parts).Some? ==>
      var v := ParseInts(parts).value;
      |v| == |parts| && forall i :: 0 <= i < |parts| ==> v[i] == PyInt(parts[i]).value
  {
    MapAllMeaning(PyInt, parts);
  }

  function ParseVersion(s: string): Option<seq<int>>
  {
    ParseInts(Split(s, '.'))
  }

  /** The part after `v` of a matching tag always parses, to three naturals. */
  lemma RelVerParses(s: string)
    requires RelVer(s)
    ensures ParseVersion(s[1..]).Some?
    ensures var v := ParseVersion(s[1..]).value; |v| == 3 && v[0] >= 0 && v[1] >= 0 && v[2] >= 0
  {
    if VersionTag(s) {
      var parts := Split(s[1..], '.');
      assert NaturalPart(parts[0]) by { PyIntNat(parts[0]); }
      assert NaturalPart(parts[1]) by { PyIntNat(parts[1]); }
      assert NaturalPart(parts[2]) by { PyIntNat(parts[2]); }
      NaturalTriple(parts);
    } else {
      var body := s[..|s| - 1];
      var parts := Split(body[1..], '.');
      var last := parts[2] + "\n";
      assert Split(s[1..], '.') == [parts[0], parts[1], last] by {
        assert s[1..] == body[1..] + ['\n'];
        SplitAppend(body[1..], '.', '\n');
      }
      assert NaturalPart(parts[0]) by { PyIntNat(parts[0]); }
      assert NaturalPart(parts[1]) by { PyIntNat(parts[1]); }
      assert NaturalPart(last) by { PyIntOfDigitsNewline(parts[2]); }
      NaturalTriple([parts[0], parts[1], last]);
    }
  }

  predicate NaturalPart(p: string) { PyInt(p).Some? && PyInt(p).value >= 0 }

  lemma NaturalTriple(parts: seq<string>)
    requires |parts| == 3 && NaturalPart(parts[0]) && NaturalPart(parts[1]) && NaturalPart(parts[2])
    ensures ParseInts(parts).Some?
    ensures var v := ParseInts(parts).value; |v| == 3 && v[0] >= 0 && v[1] >= 0 && v[2] >= 0
  {
    forall i | 0 <= i < |parts| ensures PyInt(parts[i]).Some? && PyInt(parts[i]).value >= 0 {
      assert i == 0 || i == 1 || i == 2;
    }
    ParseIntsMeaning(parts);
  }

  // ---------------------------------------------------------------------------
  // str(addon.bl_info['version'])[1:-1].replace(', ', '.')
  // ---------------------------------------------------------------------------

  /** `str` of each element of the tuple. */
  function IntStrings(v: seq<int>): seq<string>
  {
    seq(|v|, i requires 0 <= i < |v| => IntToString(v[i]))
  }

  /** `str(t)` for a tuple of ints: `()`, `(a,)`, `(a, b, ...)`. */
  function TupleRepr(v: seq<int>): (r: string)
    ensures |r| >= 2 && r[0] == '(' && r[|r| - 1] == ')'
  {
    if |v| == 0 then "()"
    else if |v| == 1 then "(" + IntToString(v[0]) + ",)"
    else "(" + Join(IntStrings(v), ", ") + ")"
  }

  /** The string stored as `addon_current_version`. */
  function CurrentVersionString(v: seq<int>): string
  {
    var r := TupleRepr(v);
    Replace(r[1..|r| - 1], ", ", ".")
  }

  lemma ParseIntStrings(v: seq<int>)
    ensures ParseInts(IntStrings(v)) == Some(v)
  {
    var parts := IntStrings(v);
    forall i | 0 <= i < |v| ensures PyInt(parts[i]) == Some(v[i]) {
      IntStringRoundTrip(v[i]);
    }
    ParseIntsMeaning(parts);
    var r := ParseInts(parts);
    assert r.Some?;
    assert forall i :: 0 <= i < |v| ==> r.value[i] == v[i];
    assert r.value == v;
  }

  lemma {:induction false} ReplaceTrailingComma(x: string)
    requires ',' !in x
    ensures Replace(x + ",", ", ", ".") == x + ","
    decreases |x|
  {
    var s := x + ",";
    if |x| > 0 {
      assert s[0] == x[0] && x[0] in x;
      assert s[..2] != ", " by { assert s[..2][0] == s[0]; }
      assert s[1..] == x[1..] + ",";
      ReplaceTrailingComma(x[1..]);
      assert [x[0]] + x[1..] == x;
    }
  }

  /** `int()` rejects a string that ends in a comma. */
  lemma TrailingCommaNotInt(t: string)
    requires |t| > 0 && t[|t| - 1] == ',' && !IsSpace(t[0])
    ensures PyInt(t).None?
  {
    StripNoSpace(t);
    assert !IsDigit(t[|t| - 1]);
    assert !AllDigits(t);
    if |t| > 1 {
      assert t[1..][|t| - 2] == ',';
      assert !AllDigits(t[1..]);
    }
    NoDigitRunNotInt(t);
  }

  /**
   * The stored string parses back to the version tuple when it has at least
   * two parts; a one- or zero-part version makes `int()` raise ValueError.
   */
  lemma CurrentVersionParses(v: seq<int>)
    ensures ParseVersion(CurrentVersionString(v)) == if |v| >= 2 then Some(v) else None
  {
    if |v| >= 2 {
      LongVersionParses(v);
    } else if |v| == 1 {
      OnePartVersionFails(v);
    } else {
      var r := TupleRepr(v);
      assert r[1..|r| - 1] == "";
      assert Split("", '.') == [""];
      assert Strip("") == "";
    }
  }

  lemma LongVersionParses(v: seq<int>)
    requires |v| >= 2
    ensures ParseVersion(CurrentVersionString(v)) == Some(v)
  {
    var r := TupleRepr(v);
    var parts := IntStrings(v);
    assert r[1..|r| - 1] == Join(parts, ", ");
    ReplaceJoin(parts, ", ", ".");
    SplitJoin(parts, '.');
    ParseIntStrings(v);
  }

  /** For two or more parts the stored string is the parts' decimals joined with `.`, as in `1.2.3`. */
  lemma CurrentVersionShape(v: seq<int>)
    requires |v| >= 2
    ensures CurrentVersionString(v) == Join(IntStrings(v), ".")
  {
    var r := TupleRepr(v);
    assert r[1..|r| - 1] == Join(IntStrings(v), ", ");
    ReplaceJoin(IntStrings(v), ", ", ".");
  }

  lemma CurrentVersionExample()
    ensures CurrentVersionString([1, 2, 3]) == "1.2.3"
  {
    CurrentVersionShape([1, 2, 3]);
    assert IntStrings([1, 2, 3]) == ["1", "2", "3"];
  }

  /** `(a,)` becomes `a,`, which `int()` rejects. */
  lemma OnePartVersionFails(v: seq<int>)
    requires |v| == 1
    ensures ParseVersion(CurrentVersionString(v)).None?
  {
    var r := TupleRepr(v);
    var x := IntToString(v[0]);
    var t := x + ",";
    var inner := r[1..|r| - 1];
    assert CurrentVersionString(v) == Replace(inner, ", ", ".");
    assert inner == t by {
      assert r == "(" + x + ",)" && |inner| == |t|;
      forall k | 0 <= k < |t| ensures inner[k] == t[k] {
        assert inner[k] == r[k + 1];
      }
    }
    ReplaceTrailingComma(x);
    assert '.' !in t by {
      assert forall k :: 0 <= k < |t| ==> t[k] == ',' || t[k] == x[k];
    }
    SplitNoSep(t, '.');
    assert t[0] == x[0];
    TrailingCommaNotInt(t);
    assert ParseInts([t]).None?;
  }

  // ---------------------------------------------------------------------------
  // The candidate loop and the latest release
  // ---------------------------------------------------------------------------

  /** The tag names, in tag order, that some release carries and that match `rel_ver`. */
  function Candidates(tags: seq<string>, releases: seq<string>): (r: seq<string>)
    ensures forall i :: 0 <= i < |r| ==> RelVer(r[i]) && r[i] in tags && r[i] in releases
  {
    if tags == [] then []
    else
      var last := tags[|tags| - 1];
      Candidates(tags[..|tags| - 1], releases) + (if last in releases && RelVer(last) then [last] else [])
  }

  lemma {:induction false} CandidatesMembers(tags: seq<string>, releases: seq<string>, x: string)
    ensures x in Candidates(tags, releases) <==> x in tags && x in releases && RelVer(x)
    decreases |tags|
  {
    if tags != [] {
      var init, last := tags[..|tags| - 1], tags[|tags| - 1];
      CandidatesMembers(init, releases, x);
      assert tags == init + [last];
    }
  }

  /** The nested loop over tags and releases, leaving the inner loop at the first equal release. */
  method CollectVersions(tags: seq<string>, releases: seq<string>) returns (versions: seq<string>)
    ensures versions == Candidates(tags, releases)
  {
    versions := [];
    for i := 0 to |tags|
      invariant versions == Candidates(tags[..i], releases)
    {
      var nameTag := tags[i];
      assert tags[..i + 1][..i] == tags[..i];
      var j := 0;
      while j < |releases|
        invariant 0 <= j <= |releases|
        invariant nameTag !in releases[..j]
        invariant versions == Candidates(tags[..i], releases)
      {
        var nameRelease := releases[j];
        if nameTag == nameRelease {
          if RelVer(nameTag) {
            versions := versions + [nameTag];
          }
          break;
        }
        assert releases[..j + 1] == releases[..j] + [nameRelease];
        j := j + 1;
      }
      assert j == |releases| ==> releases[..j] == releases;
    }
    assert tags[..|tags|] == tags;
  }

  /** `sorted(versions, reverse=True)[0]`: the greatest name under Python's string order. */
  function Latest(versions: seq<string>): (r: string)
    requires versions != []
    ensures r in versions
    ensures forall i :: 0 <= i < |versions| ==> versions[i] == r || StrLess(versions[i], r)
  {
    if |versions| == 1 then versions[0]
    else
      var m := Latest(versions[1..]);
      assert forall i :: 1 <= i < |versions| ==> versions[i] == versions[1..][i - 1];
      StrLessTotal(m, versions[0]);
      if StrLess(m, versions[0]) then
        (forall i | 1 <= i < |versions| ensures versions[i] == versions[0] || StrLess(versions[i], versions[0]) {
           if versions[i] != m { StrLessTransitive(versions[i], m, versions[0]); }
         }
         versions[0])
      else m
  }

  /** The greatest name is not the greatest version: v1.9.0 is chosen over v1.10.0. */
  lemma StringOrderIsNotVersionOrder()
    ensures Latest(["v1.9.0", "v1.10.0"]) == "v1.9.0"
    ensures TupleLess([1, 9, 0], [1, 10, 0])
  {
    var older, newer := "v1.9.0", "v1.10.0";
    assert older[..3] == newer[..3] && older[3] > newer[3];
    assert StrLess(newer, older) by {
      assert newer[1..][1..][1..] == newer[3..] && older[1..][1..][1..] == older[3..];
    }
    StrLessAsymmetric(newer, older);
    assert Latest([older, newer]) == older by {
      assert [older, newer][1..] == [newer];
    }
  }

  // ---------------------------------------------------------------------------
  // Tuple order and the decision
  // ---------------------------------------------------------------------------

  /** Python's `<` on tuples: the first differing element decides, a proper prefix is smaller. */
  predicate TupleLess(a: seq<int>, b: seq<int>)
  {
    |b| > 0 && (|a| == 0 || a[0] < b[0] || (a[0] == b[0] && TupleLess(a[1..], b[1..])))
  }

  lemma {:induction false} TupleIrreflexive(a: seq<int>)
    ensures !TupleLess(a, a)
  {
    if |a| > 0 {
      TupleIrreflexive(a[1..]);
    }
  }

  lemma {:induction false} TupleTrichotomy(a: seq<int>, b: seq<int>)
    ensures TupleLess(a, b) || a == b || TupleLess(b, a)
    ensures !(TupleLess(a, b) && TupleLess(b, a))
  {
    if |a| > 0 && |b| > 0 {
      TupleTrichotomy(a[1..], b[1..]);
      if a[0] == b[0] && a[1..] == b[1..] {
        assert a == [a[0]] + a[1..] && b == [b[0]] + b[1..];
      }
    }
  }

  /** On version triples the order is major, then minor, then patch. */
  lemma TripleOrder(a: seq<int>, b: seq<int>)
    requires |a| == 3 && |b| == 3
    ensures TupleLess(a, b) <==>
      a[0] < b[0] || (a[0] == b[0] && (a[1] < b[1] || (a[1] == b[1] && a[2] < b[2])))
  {
    var a1, b1 := a[1..], b[1..];
    var a2, b2 := a1[1..], b1[1..];
    assert a2[1..] == [] && b2[1..] == [];
    assert TupleLess(a2, b2) <==> a[2] < b[2];
    assert TupleLess(a1, b1) <==> a[1] < b[1] || (a[1] == b[1] && TupleLess(a2, b2));
  }

  const NoValidReleases := "No valid releases found."
  const NotInstalled := "VRAGE Tools not installed."
  const DevelopmentVersion := "Latest development version."
  const UpToDate := "VRAGE Tools is up to date."
  const RateLimited := "Rate limit exceeded! Please wait one hour to check again."
  const ConnectionFailed := "Connection Failed!"

  function Available(name: string): string
  {
    "VRAGE Tools version " + name + " available!"
  }

  datatype Status = Status(needsUpdate: bool, message: string)

  /** The three-way comparison of the installed and the latest version. */
  function Decide(current: seq<int>, latest: seq<int>, latestName: string): (r: Status)
    ensures r.needsUpdate <==> TupleLess(current, latest)
    ensures r.needsUpdate ==> r.message == (if current == [0, 0, 0] then NotInstalled else Available(latestName))
    ensures r.message == DevelopmentVersion <==> TupleLess(latest, current)
    ensures r.message == UpToDate <==> current == latest
  {
    TupleTrichotomy(current, latest);
    TupleIrreflexive(current);
    var available := Available(latestName);
    assert available[12] == 'v' && UpToDate[12] == 'i' && DevelopmentVersion[0] == 'L';
    if TupleLess(current, latest) then
      Status(true, if current == [0, 0, 0] then NotInstalled else available)
    else if TupleLess(latest, current) then Status(false, DevelopmentVersion)
    else Status(false, UpToDate)
  }

  /** What the candidate step reports: the status and the new `addon_latest_version`, if one is set. */
  datatype Report = Report(status: Status, latest: Option<string>)

  /** `sorted(versions, reverse=True)[0][1:]`: the latest candidate without its `v`; it always parses. */
  function LatestVersionName(versions: seq<string>): (r: string)
    requires versions != []
    requires forall i :: 0 <= i < |versions| ==> RelVer(versions[i])
    ensures ParseVersion(r).Some?
  {
    var name := Latest(versions);
    RelVerParses(name);
    name[1..]
  }

  /** With its `v` put back, that name is the greatest candidate. */
  lemma LatestVersionNameIsGreatest(versions: seq<string>)
    requires versions != []
    requires forall i :: 0 <= i < |versions| ==> RelVer(versions[i])
    ensures var best := "v" + LatestVersionName(versions);
      && best in versions
      && forall i :: 0 <= i < |versions| ==> versions[i] == best || StrLess(versions[i], best)
  {
    var name := Latest(versions);
    TagStartsWithV(name);
  }

  lemma TagStartsWithV(s: string)
    requires RelVer(s)
    ensures s == "v" + s[1..]
  {
    assert s[0] == 'v';
  }

  /** The lines after the candidate loop: no candidates, or the latest one's name and the decision. */
  function Evaluate(current: seq<int>, versions: seq<string>): (r: Report)
    requires forall i :: 0 <= i < |versions| ==> RelVer(versions[i])
    ensures r.latest.None? <==> versions == []
    ensures r.latest.None? ==> r.status == Status(false, NoValidReleases)
    ensures r.latest.Some? ==>
      && r.latest.value == LatestVersionName(versions)
      && r.status == Decide(current, ParseVersion(r.latest.value).value, r.latest.value)
  {
    if versions == [] then Report(Status(false, NoValidReleases), None)
    else
      var name := LatestVersionName(versions);
      Report(Decide(current, ParseVersion(name).value, name), Some(name))
  }

  // ---------------------------------------------------------------------------
  // check_repo_update and the Check for Updates operator
  // ---------------------------------------------------------------------------

  /** Both responses, or the exception raised by a request or by decoding a body. */
  datatype Fetch =
    | Failed
    | Responses(tagStatus: int, releaseStatus: int, tags: seq<string>, releases: seq<string>)
  {
    predicate BothOk() { Responses? && tagStatus == 200 && releaseStatus == 200 }
    predicate AnyForbidden() { Responses? && (tagStatus == 403 || releaseStatus == 403) }
  }

  /** Whether a request is made: an hour and some since the last stored check, or forced. */
  predicate FetchDue(now: int, lastCheck: int, force: bool)
  {
    now - lastCheck >= 4000 || force
  }

  /** The add-on preferences the check reads and writes. */
  class Preferences {
    var currentVersion: string
    var latestVersion: string
    var needsUpdate: bool
    var updateMessage: string
    var lastCheck: int
    /** The cached lists; None when the stored text does not decode. */
    var cacheTags: Option<seq<string>>
    var cacheReleases: Option<seq<string>>

    /**
     * The model's starting values: empty texts, no check yet, and `None` for a
     * cache text that does not decode. The add-on's property declarations are
     * not part of this model.
     */
    constructor ()
      ensures currentVersion == "" && latestVersion == "" && !needsUpdate && updateMessage == ""
      ensures lastCheck == 0 && cacheTags == None && cacheReleases == None
    {
      currentVersion, latestVersion, needsUpdate, updateMessage := "", "", false, "";
      lastCheck, cacheTags, cacheReleases := 0, None, None;
    }

    /**
     * `check_repo_update(force)`. `raised` is the ValueError of parsing the
     * stored current version, which happens outside the `try`.
     */
    method CheckRepoUpdate(force: bool, now: int, fetch: Fetch) returns (raised: bool)
      modifies this
      ensures currentVersion == old(currentVersion)
      ensures raised <==> ParseVersion(old(currentVersion)).None?
      ensures raised ==> !needsUpdate && updateMessage == "" && Stored() == old(Stored())
      ensures !raised ==>
        Checked(ParseVersion(old(currentVersion)).value, force, now, fetch, old(Stored()), Stored(),
                needsUpdate, updateMessage)
    {
      needsUpdate := false;
      updateMessage := "";
      var parsed := ParseVersion(currentVersion);
      if parsed.None? {
        return true;
      }
      raised := false;
      ghost var before := Stored();
      assert before == old(Stored()) && parsed == ParseVersion(old(currentVersion));
      RunCheck(parsed.value, force, now, fetch);
      assert Checked(parsed.value, force, now, fetch, before, Stored(), needsUpdate, updateMessage);
    }

    /** The fields the check keeps between runs. */
    function Stored(): StoredCheck
      reads this
    {
      StoredCheck(lastCheck, cacheTags, cacheReleases, latestVersion)
    }

    /** The `try` block of `check_repo_update` once the current version has parsed. */
    method RunCheck(current: seq<int>, force: bool, now: int, fetch: Fetch)
      requires !needsUpdate && updateMessage == ""
      modifies this
      ensures currentVersion == old(currentVersion)
      ensures Checked(current, force, now, fetch, old(Stored()), Stored(), needsUpdate, updateMessage)
    {
      var due := now - lastCheck >= 4000 || force;
      var lists := LoadLists(due, now, fetch);
      match lists
      case Some((tags, releases)) =>
        ReportOn(current, tags, releases);
      case None =>
        updateMessage := FailureMessage(due, fetch);
    }

    /** The request or the cache: the lists to look at, and the cache stored after two 200 responses. */
    method LoadLists(due: bool, now: int, fetch: Fetch) returns (lists: Option<(seq<string>, seq<string>)>)
      modifies this
      ensures lists == ListsToCheck(due, fetch, old(cacheTags), old(cacheReleases))
      ensures CacheAfter(due, now, fetch, old((lastCheck, cacheTags, cacheReleases)), (lastCheck, cacheTags, cacheReleases))
      ensures currentVersion == old(currentVersion) && latestVersion == old(latestVersion)
      ensures needsUpdate == old(needsUpdate) && updateMessage == old(updateMessage)
    {
      if due {
        if fetch.Failed? {
          return None;
        }
        if fetch.tagStatus == 200 && fetch.releaseStatus == 200 {
          cacheTags, cacheReleases := Some(fetch.tags), Some(fetch.releases);
          lastCheck := now;
          return Some((fetch.tags, fetch.releases));
        }
        return None;
      }
      if cacheTags.None? || cacheReleases.None? {
        return None;
      }
      return Some((cacheTags.value, cacheReleases.value));
    }

    /** The candidate loop and the decision on the chosen lists. */
    method ReportOn(current: seq<int>, tags: seq<string>, releases: seq<string>)
      modifies this
      ensures ReportedOn(current, tags, releases, old(latestVersion), (needsUpdate, updateMessage, latestVersion))
      ensures currentVersion == old(currentVersion) && lastCheck == old(lastCheck)
      ensures cacheTags == old(cacheTags) && cacheReleases == old(cacheReleases)
    {
      var versions := CollectVersions(tags, releases);
      var report := Evaluate(current, versions);
      if report.latest.Some? {
        latestVersion := report.latest.value;
      }
      updateMessage := report.status.message;
      needsUpdate := report.status.needsUpdate;
    }
  }

  /** The lists the candidate loop runs on: the fresh ones after two 200 responses, or the decoded cache. */
  function ListsToCheck(due: bool, fetch: Fetch, cacheTags: Option<seq<string>>, cacheReleases: Option<seq<string>>)
    : (r: Option<(seq<string>, seq<string>)>)
    ensures due ==> (r.Some? <==> fetch.BothOk()) && (r.Some? ==> r.value == (fetch.tags, fetch.releases))
    ensures !due ==> (r.Some? <==> cacheTags.Some? && cacheReleases.Some?)
    ensures !due && r.Some? ==> r.value == (cacheTags.value, cacheReleases.value)
  {
    if due then (if fetch.BothOk() then Some((fetch.tags, fetch.releases)) else None)
    else if cacheTags.Some? && cacheReleases.Some? then Some((cacheTags.value, cacheReleases.value))
    else None
  }

  /** The message when there are no lists: a raised request or cache decode, a 403, or any other status. */
  function FailureMessage(due: bool, fetch: Fetch): string
  {
    if !due || fetch.Failed? then ConnectionFailed
    else if fetch.AnyForbidden() then RateLimited
    else NoValidReleases
  }

  /** The stored check after the request step: updated only by two 200 responses to a request that was due. */
  predicate CacheAfter(due: bool, now: int, fetch: Fetch,
                       before: (int, Option<seq<string>>, Option<seq<string>>),
                       after: (int, Option<seq<string>>, Option<seq<string>>))
  {
    if due && fetch.BothOk() then after == (now, Some(fetch.tags), Some(fetch.releases)) else after == before
  }

  /**
   * The preferences' `(needs_update, update_message, latest_version)` after the
   * candidate step on `tags` and `releases`.
   */
  predicate ReportedOn(current: seq<int>, tags: seq<string>, releases: seq<string>, oldLatest: string,
                       after: (bool, string, string))
  {
    var report := Evaluate(current, Candidates(tags, releases));
    after == (report.status.needsUpdate, report.status.message,
              if report.latest.Some? then report.latest.value else oldLatest)
  }

  /** `addon_last_check`, the two caches and `addon_latest_version`. */
  datatype StoredCheck = StoredCheck(lastCheck: int, tags: Option<seq<string>>, releases: Option<seq<string>>,
                                     latest: string)

  /**
   * The state after the `try` block of a check on the parsed `current` version:
   * the request step's cache, then either the report on the lists or the failure message.
   */
  predicate Checked(current: seq<int>, force: bool, now: int, fetch: Fetch, before: StoredCheck, after: StoredCheck,
                    needsUpdate: bool, message: string)
  {
    var due := FetchDue(now, before.lastCheck, force);
    && CacheAfter(due, now, fetch, (before.lastCheck, before.tags, before.releases),
                  (after.lastCheck, after.tags, after.releases))
    && match ListsToCheck(due, fetch, before.tags, before.releases)
       case Some(lists) => ReportedOn(current, lists.0, lists.1, before.latest, (needsUpdate, message, after.latest))
       case None => !needsUpdate && after.latest == before.latest && message == FailureMessage(due, fetch)
  }

  /**
   * `VRT_OT_CheckUpdate.execute`: stores the installed version as text, then
   * runs a forced check; it raises exactly when that version has under two parts.
   */
  method CheckUpdate(prefs: Preferences, blVersion: seq<int>, now: int, fetch: Fetch) returns (raised: bool)
    modifies prefs
    ensures prefs.currentVersion == CurrentVersionString(blVersion)
    ensures raised <==> |blVersion| < 2
    ensures !raised ==> Checked(blVersion, true, now, fetch, old(prefs.Stored()), prefs.Stored(),
                                prefs.needsUpdate, prefs.updateMessage)
    ensures !raised ==> prefs.lastCheck == (if fetch.BothOk() then now else old(prefs.lastCheck))
    ensures !raised && fetch.Failed? ==> prefs.updateMessage == ConnectionFailed && !prefs.needsUpdate
    ensures !raised && fetch.BothOk() ==>
      var report := Evaluate(blVersion, Candidates(fetch.tags, fetch.releases));
      prefs.needsUpdate == report.status.needsUpdate && prefs.updateMessage == report.status.message
  {
    prefs.currentVersion := CurrentVersionString(blVersion);
    CurrentVersionParses(blVersion);
    raised := prefs.CheckRepoUpdate(true, now, fetch);
  }
}
