/**
 * The save-name grammar, read left to right:
 *   [`__` internal `__`] `user` tag [`_` version] `.dat` [`.bak` digits] end
 * where the user tag ends at the first position from which the rest of the
 * name is an optional version followed by the suffix.
 */
module Parser {

  import opened Wrappers
  import opened Nom
  import opened SaveInfo

  // ---------------------------------------------------------------------
  // Internal tag
  // ---------------------------------------------------------------------

  /** `t` contains two consecutive underscores. */
  predicate HasDoubleUnderscore(t: string) {
    exists i, j {:trigger t[i], t[j]} :: 0 <= i && j == i + 1 < |t| && t[i] == '_' && t[j] == '_'
  }

  /** An internal tag that survives being enclosed in `__` and read back by
      `take_until("__")`: no `__` inside it and no `_` at its end. */
  predicate IsInternalTag(t: string) {
    !HasDoubleUnderscore(t) && (t == [] || t[|t| - 1] != '_')
  }

  lemma DoubleUnderscorePrefix(x: string)
    ensures "__" <= x <==> |x| >= 2 && x[0] == '_' && x[1] == '_'
  {
    if |x| >= 2 {
      assert x[..2] == [x[0], x[1]];
    }
  }

  /** `take_until("__")` stops at the end of `t` exactly when `t` is an internal tag. */
  lemma InternalTagBoundary(t: string, rest: string)
    ensures IsInternalTag(t) <==> forall j :: 0 <= j < |t| ==> !OccursAt("__", t + "__" + rest, j)
  {
    var s := t + "__" + rest;
    forall j | 0 <= j < |t|
      ensures OccursAt("__", s, j) <==> t[j] == '_' && (j + 1 < |t| ==> t[j + 1] == '_')
    {
      DoubleUnderscorePrefix(s[j..]);
      assert s[j..][0] == t[j];
      assert s[j..][1] == if j + 1 < |t| then t[j + 1] else '_';
    }
    if IsInternalTag(t) {
      forall j | 0 <= j < |t|
        ensures !OccursAt("__", s, j)
      {
        if j + 1 < |t| {
          assert !HasDoubleUnderscore(t);
          assert !(t[j] == '_' && t[j + 1] == '_');
        } else {
          assert j == |t| - 1;
          assert t[j] != '_';
        }
        assert !(t[j] == '_' && (j + 1 < |t| ==> t[j + 1] == '_'));
      }
    } else if HasDoubleUnderscore(t) {
      var i, j :| 0 <= i && j == i + 1 < |t| && t[i] == '_' && t[j] == '_';
      assert OccursAt("__", s, i);
    } else {
      assert OccursAt("__", s, |t| - 1);
    }
  }

  /** What `take_until("__")` leaves after the opening `__` is an internal tag
      and the closing `__`. */
  lemma EnclosedTag(s: string, t: string, rest: string)
    requires "__" <= s && s[2..] == t + rest && "__" <= rest
    requires forall j :: 0 <= j < |t| ==> !OccursAt("__", s[2..], j)
    ensures s == "__" + t + "__" + rest[2..] && IsInternalTag(t)
  {
    assert rest == "__" + rest[2..];
    assert s[2..] == t + "__" + rest[2..];
    InternalTagBoundary(t, rest[2..]);
    assert s == "__" + s[2..];
    Assoc("__", t, "__", rest[2..]);
  }

  /** `parse_tag_internal`: `__`, then everything up to the next `__`, then that `__`. */
  function ParseTagInternal(s: string): (r: Res<string>)
    ensures r.Success? <==> "__" <= s && Occurs("__", s[2..])
    ensures r.Success? ==> s == "__" + r.value + "__" + r.rest && IsInternalTag(r.value)
    ensures r.Failure? && !("__" <= s) ==> r.rest == s
    ensures r.Failure? && "__" <= s ==> r.rest == s[2..]
  {
    match Tag("__", s)
    case Failure(rest) => Failure(rest)
    case Success(input, _) =>
      match TakeUntil("__", input)
      case Failure(rest) => Failure(rest)
      case Success(input', internal_tag) =>
        EnclosedTag(s, internal_tag, input');
        match Tag("__", input')
        case Failure(rest) => Failure(rest)
        case Success(input'', _) => Success(input'', internal_tag)
  }

  /** An enclosed tag is read back unchanged exactly when it is an internal tag. */
  lemma ParseTagInternalOf(t: string, rest: string)
    ensures ParseTagInternal("__" + t + "__" + rest) == Success(rest, t) <==> IsInternalTag(t)
  {
    var s := "__" + t + "__" + rest;
    var input := t + "__" + rest;
    assert s[2..] == input;
    if IsInternalTag(t) {
      InternalTagBoundary(t, rest);
      assert input[|t|..] == "__" + rest;
      assert OccursAt("__", input, |t|);
      var u := TakeUntil("__", input);
      assert |u.value| == |t|;
      assert u.value == t;
    }
  }

  // ---------------------------------------------------------------------
  // Suffix
  // ---------------------------------------------------------------------

  /** `parse_suffix_bak`: `.bak`, then any digits, then end of input. */
  function ParseSuffixBak(s: string): (r: Res<string>)
    ensures r.Success? <==> ".bak" <= s && AllDigits(s[4..])
    ensures r.Success? ==> r.rest == [] && s == ".bak" + r.value
    ensures !(".bak" <= s) ==> r == Failure(s)
  {
    match Tag(".bak", s)
    case Failure(rest) => Failure(rest)
    case Success(input, _) =>
      var digits := Digit0(input);
      match Eof(digits.rest)
      case Failure(rest) =>
        assert !AllDigits(input) by {
          assert input[|digits.value|] == digits.rest[0];
        }
        Failure(rest)
      case Success(input', _) =>
        assert input == digits.value;
        Success(input', digits.value)
  }

  /** The suffix language: `.dat`, or `.dat.bak` and digits. */
  predicate IsSuffixText(t: string) {
    t == ".dat" || (".dat.bak" <= t && AllDigits(t[8..]))
  }

  /** `parse_suffix`: `.dat`, then optionally the backup part, then end of input. */
  function ParseSuffix(s: string): (r: Res<Option<string>>)
    ensures r.Success? <==> IsSuffixText(s)
    ensures r.Success? ==> r.rest == []
    ensures r.Success? && r.value.None? ==> s == ".dat"
    ensures r.Success? && r.value.Some? ==> s == ".dat.bak" + r.value.value && AllDigits(r.value.value)
    ensures !(".dat" <= s) ==> r == Failure(s)
  {
    match Tag(".dat", s)
    case Failure(rest) => Failure(rest)
    case Success(input, _) =>
      assert ".dat.bak" <= s <==> ".bak" <= input;
      assert ".dat.bak" <= s ==> s[8..] == input[4..];
      match Opt(ParseSuffixBak, input)
      case Failure(rest) => Failure(rest)
      case Success(input', backup_id) =>
        match Eof(input')
        case Failure(rest) => Failure(rest)
        case Success(input'', _) => Success(input'', backup_id)
  }

  /** The suffix parser reads back exactly the extension the formatter writes. */
  lemma ParseSuffixOf(backup_id: Option<string>)
    ensures ParseSuffix(ExtText(backup_id)).Success? <==> (backup_id.Some? ==> AllDigits(backup_id.value))
    ensures ParseSuffix(ExtText(backup_id)).Success? ==> ParseSuffix(ExtText(backup_id)) == Success([], backup_id)
  {
    if backup_id.Some? {
      assert ExtText(backup_id)[8..] == backup_id.value;
    }
  }

  // ---------------------------------------------------------------------
  // Version
  // ---------------------------------------------------------------------

  /** The concrete text of a version: digits and dots, starting and ending
      with a digit, every dot followed by a digit (so never `..`). */
  predicate IsDottedDigits(v: string) {
    && v != []
    && IsDigit(v[0])
    && IsDigit(v[|v| - 1])
    && (forall i :: 0 <= i < |v| ==> IsDigit(v[i]) || v[i] == '.')
    && (forall i, j {:trigger v[i], v[j]} :: 0 <= i && j == i + 1 < |v| && v[i] == '.' ==> IsDigit(v[j]))
  }

  /** What `parse_version` can recognise after `_`: nothing, or dotted digits. */
  predicate IsVersion(v: string) {
    v == [] || IsDottedDigits(v)
  }

  predicate StartsWithDotDigit(s: string) {
    |s| >= 2 && s[0] == '.' && IsDigit(s[1])
  }

  predicate AreGroups(groups: seq<string>) {
    forall i :: 0 <= i < |groups| ==> groups[i] != [] && AllDigits(groups[i])
  }

  /** The groups, each preceded by a dot. */
  function DotEach(groups: seq<string>): string {
    if groups == [] then "" else "." + groups[0] + DotEach(groups[1..])
  }

  /** The groups joined by dots. */
  function JoinDots(groups: seq<string>): string {
    if groups == [] then "" else groups[0] + DotEach(groups[1..])
  }

  lemma GroupsCons(g: string, gs: seq<string>)
    ensures DotEach([g] + gs) == "." + g + DotEach(gs)
    ensures JoinDots([g] + gs) == g + DotEach(gs)
    ensures g != [] && AllDigits(g) && AreGroups(gs) ==> AreGroups([g] + gs)
  {
    assert ([g] + gs)[1..] == gs;
  }

  /** The loop of `separated_list0(tag("."), digit1)` after its first group:
      a `.` is consumed only together with the digit group after it. */
  function MoreGroups(s: string): (r: Res<seq<string>>)
    ensures r.Success? && AreGroups(r.value) && s == DotEach(r.value) + r.rest
    ensures !StartsWithDotDigit(r.rest)
    ensures r.value != [] ==> !StartsWithDigit(r.rest)
    ensures r.value == [] ==> r.rest == s
    decreases |s|
  {
    match Tag(".", s)
    case Failure(_) => Success(s, [])
    case Success(input, _) =>
      match Digit1(input)
      case Failure(_) => Success(s, [])
      case Success(input', group) =>
        var more := MoreGroups(input');
        GroupsCons(group, more.value);
        Assoc(".", group, DotEach(more.value), more.rest);
        Success(more.rest, [group] + more.value)
  }

  /** `separated_list0(tag("."), digit1)`: zero or more digit groups separated by dots. */
  function DigitGroups(s: string): (r: Res<seq<string>>)
    ensures r.Success? && AreGroups(r.value) && s == JoinDots(r.value) + r.rest
    ensures !StartsWithDigit(r.rest)
    ensures r.value != [] ==> !StartsWithDotDigit(r.rest)
    ensures r.value == [] ==> r.rest == s
  {
    match Digit1(s)
    case Failure(_) => Success(s, [])
    case Success(input, group) =>
      var more := MoreGroups(input);
      GroupsCons(group, more.value);
      Assoc3(group, DotEach(more.value), more.rest);
      Success(more.rest, [group] + more.value)
  }

  /** Digits followed by nothing or by a dot and dotted digits are dotted digits. */
  lemma DottedAppend(g: string, d: string)
    requires g != [] && AllDigits(g)
    requires d == [] || (d[0] == '.' && IsDottedDigits(d[1..]))
    ensures IsDottedDigits(g + d)
  {
    var v := g + d;
    if d != [] {
      var e := d[1..];
      assert v[|v| - 1] == e[|e| - 1];
      forall i | 0 <= i < |v|
        ensures IsDigit(v[i]) || v[i] == '.'
      {
        if i > |g| {
          assert v[i] == e[i - |g| - 1];
        }
      }
      forall i, j | 0 <= i && j == i + 1 < |v| && v[i] == '.'
        ensures IsDigit(v[j])
      {
        if i == |g| {
          assert v[j] == e[0];
        } else {
          assert i > |g|;
          assert v[i] == e[i - |g| - 1] && v[j] == e[j - |g| - 1];
        }
      }
    }
  }

  lemma {:induction false} DotEachShape(groups: seq<string>)
    requires AreGroups(groups)
    ensures DotEach(groups) == [] <==> groups == []
    ensures groups != [] ==> DotEach(groups)[0] == '.' && IsDottedDigits(DotEach(groups)[1..])
    decreases |groups|
  {
    if groups != [] {
      var x := groups[0] + DotEach(groups[1..]);
      assert AreGroups(groups[1..]) by {
        assert forall i :: 1 <= i < |groups| ==> groups[1..][i - 1] == groups[i];
      }
      DotEachShape(groups[1..]);
      DottedAppend(groups[0], DotEach(groups[1..]));
      Assoc3(".", groups[0], DotEach(groups[1..]));
      assert DotEach(groups) == "." + x;
      assert ("." + x)[1..] == x;
    }
  }

  /** The text of one or more digit groups joined by dots is dotted digits. */
  lemma JoinDotsShape(groups: seq<string>)
    requires AreGroups(groups)
    ensures groups == [] ==> JoinDots(groups) == []
    ensures groups != [] ==> IsDottedDigits(JoinDots(groups))
  {
    if groups != [] {
      DotEachShape(groups[1..]);
      DottedAppend(groups[0], DotEach(groups[1..]));
    }
  }

  /** `parse_version`: `_`, then the text of the digit groups (possibly empty). */
  function ParseVersion(s: string): (r: Res<string>)
    ensures r.Success? <==> "_" <= s
    ensures r.Failure? ==> r.rest == s
    ensures r.Success? ==> s == "_" + r.value + r.rest && IsVersion(r.value)
    // the version is as long as the grammar allows
    ensures r.Success? ==> !StartsWithDigit(r.rest)
    ensures r.Success? && r.value != [] ==> !StartsWithDotDigit(r.rest)
  {
    match Tag("_", s)
    case Failure(rest) => Failure(rest)
    case Success(input, _) =>
      var groups := DigitGroups(input);
      RecognizedGroups(s, groups.value, groups.rest);
      Success(groups.rest, input[..|input| - |groups.rest|])
  }

  /** What `recognize` gives back for the digit groups after `_` is their text. */
  lemma RecognizedGroups(s: string, groups: seq<string>, rest: string)
    requires "_" <= s && AreGroups(groups) && s[1..] == JoinDots(groups) + rest
    requires groups == [] ==> rest == s[1..]
    ensures s[1..][..|s[1..]| - |rest|] == JoinDots(groups)
    ensures s == "_" + JoinDots(groups) + rest && IsVersion(JoinDots(groups))
    ensures JoinDots(groups) != [] <==> groups != []
  {
    JoinDotsShape(groups);
    assert s == "_" + s[1..];
    Assoc3("_", JoinDots(groups), rest);
  }

  /** Splitting dotted digits after their first digit group. */
  lemma LeadingGroup(v: string)
    requires IsDottedDigits(v)
    ensures Digit0(v).value != []
    ensures Digit0(v).rest == [] || (Digit0(v).rest[0] == '.' && IsDottedDigits(Digit0(v).rest[1..]))
  {
    var d, w := Digit0(v).value, Digit0(v).rest;
    if w != [] {
      var n := |d|;
      assert v[n] == w[0];
      assert n < |v| - 1;
      var e := w[1..];
      assert e == v[n + 1..];
      assert e[0] == v[n + 1];
      assert e[|e| - 1] == v[|v| - 1];
      forall i | 0 <= i < |e|
        ensures IsDigit(e[i]) || e[i] == '.'
      {
        assert e[i] == v[n + 1 + i];
      }
      forall i, j | 0 <= i && j == i + 1 < |e| && e[i] == '.'
        ensures IsDigit(e[j])
      {
        assert e[i] == v[n + 1 + i] && e[j] == v[n + 1 + j];
      }
    }
  }

  /** One dot and one digit group, followed by something that is not a digit. */
  lemma MoreGroupsStep(d: string, y: string)
    requires d != [] && AllDigits(d) && !StartsWithDigit(y)
    ensures MoreGroups("." + (d + y)).rest == MoreGroups(y).rest
  {
    var x := "." + (d + y);
    assert x[1..] == d + y;
    Digit0Exact(d, y);
  }

  /** A digit group that runs up to a non-digit begins the groups. */
  lemma DigitGroupsStep(d: string, y: string)
    requires d != [] && AllDigits(d) && !StartsWithDigit(y)
    ensures DigitGroups(d + y).rest == MoreGroups(y).rest
  {
    Digit0Exact(d, y);
  }

  /** What follows the first group of dotted digits cannot start with a digit. */
  lemma AfterGroup(w: string, rest: string)
    requires w == [] || (w[0] == '.' && IsDottedDigits(w[1..]))
    requires !StartsWithDigit(rest)
    ensures !StartsWithDigit(w + rest)
  {
    if w != [] {
      assert (w + rest)[0] == '.';
    } else {
      assert w + rest == rest;
    }
  }

  /** Digit groups after a dot are read up to where the version ends. */
  lemma {:induction false} MoreGroupsOf(w: string, rest: string)
    requires w == [] || (w[0] == '.' && IsDottedDigits(w[1..]))
    requires !StartsWithDigit(rest) && !StartsWithDotDigit(rest)
    ensures MoreGroups(w + rest).rest == rest
    decreases |w|
  {
    if w == [] {
      assert w + rest == rest;
    } else {
      var u := w[1..];
      LeadingGroup(u);
      var d, w' := Digit0(u).value, Digit0(u).rest;
      assert w == "." + (d + w');
      Assoc(".", d, w', rest);
      assert w + rest == "." + (d + (w' + rest));
      AfterGroup(w', rest);
      MoreGroupsStep(d, w' + rest);
      MoreGroupsOf(w', rest);
    }
  }

  /** The groups of dotted digits are read up to where the version ends. */
  lemma DigitGroupsOf(v: string, rest: string)
    requires IsDottedDigits(v)
    requires !StartsWithDigit(rest) && !StartsWithDotDigit(rest)
    ensures DigitGroups(v + rest).rest == rest
  {
    LeadingGroup(v);
    var d, w := Digit0(v).value, Digit0(v).rest;
    assert v == d + w;
    Assoc3(d, w, rest);
    AfterGroup(w, rest);
    DigitGroupsStep(d, w + rest);
    MoreGroupsOf(w, rest);
  }

  /** `parse_version` reads back a version the formatter wrote, given what follows cannot extend it. */
  lemma ParseVersionOf(v: string, rest: string)
    requires IsVersion(v) && !StartsWithDigit(rest)
    requires v != [] ==> !StartsWithDotDigit(rest)
    ensures ParseVersion("_" + v + rest) == Success(rest, v)
  {
    var s := "_" + v + rest;
    Assoc3("_", v, rest);
    assert s[1..] == v + rest;
    if v == [] {
      assert v + rest == rest;
    } else {
      DigitGroupsOf(v, rest);
    }
  }

  // ---------------------------------------------------------------------
  // User tag
  // ---------------------------------------------------------------------

  /** `opt(parse_version)`: never fails, and reads a version exactly when the
      input starts with `_`. */
  function OptVersion(s: string): (r: Res<Option<string>>)
    ensures r.Success?
    ensures r.value.Some? <==> "_" <= s
    ensures r.value.None? ==> r.rest == s
    ensures r.value.Some? ==> IsVersion(r.value.value) && |r.rest| == |s| - 1 - |r.value.value|
  {
    Opt(ParseVersion, s)
  }

  /** `preceded(opt(parse_version), parse_suffix)`, the look-ahead that ends the user tag. */
  function VersionThenSuffix(s: string): (r: Res<Option<string>>)
    ensures r.Success? ==> r.rest == []
    ensures r.Success? && r.value.Some? ==> AllDigits(r.value.value)
  {
    Preceded(OptVersion, ParseSuffix, s)
  }

  /** What may follow the user tag: a version and the suffix, or the suffix alone. */
  predicate IsTail(t: string) {
    || IsSuffixText(t)
    || ("_" <= t && exists i :: 1 <= i <= |t| && IsVersion(t[1..i]) && IsSuffixText(t[i..]))
  }

  /** When the look-ahead succeeds, what it saw is in the tail language. */
  lemma LookaheadIsTail(t: string)
    requires VersionThenSuffix(t).Success?
    ensures IsTail(t)
  {
    var o := ParseVersion(t);
    if o.Success? {
      var i := 1 + |o.value|;
      assert t[1..i] == o.value && t[i..] == o.rest;
    }
  }

  /** The suffix starts with `.d`, so it can neither extend a version nor start one. */
  lemma SuffixTextStart(x: string)
    requires IsSuffixText(x)
    ensures |x| >= 4 && x[0] == '.' && x[1] == 'd'
    ensures !StartsWithDigit(x) && !StartsWithDotDigit(x)
  {
    assert x[..4] == ".dat";
    assert x[0] == x[..4][0] && x[1] == x[..4][1];
  }

  /** A suffix alone passes the look-ahead. */
  lemma SuffixIsLookahead(x: string)
    requires IsSuffixText(x)
    ensures VersionThenSuffix(x).Success?
  {
    SuffixTextStart(x);
    assert !("_" <= x);
    assert OptVersion(x) == Success(x, None);
  }

  /** A version and a suffix pass the look-ahead. */
  lemma VersionSuffixIsLookahead(v: string, x: string)
    requires IsVersion(v) && IsSuffixText(x)
    ensures VersionThenSuffix("_" + v + x).Success?
  {
    SuffixTextStart(x);
    ParseVersionOf(v, x);
    assert OptVersion("_" + v + x) == Success(x, Some(v));
  }

  lemma UnderscoreSplit(t: string, i: int)
    requires "_" <= t && 1 <= i <= |t|
    ensures t == "_" + t[1..i] + t[i..]
  {
    assert t[..1] == "_";
    assert t == t[..1] + t[1..i] + t[i..];
  }

  /** Whatever is in the tail language passes the look-ahead. */
  lemma TailIsLookahead(t: string)
    requires IsTail(t)
    ensures VersionThenSuffix(t).Success?
  {
    if IsSuffixText(t) {
      SuffixIsLookahead(t);
    } else {
      var i :| 1 <= i <= |t| && IsVersion(t[1..i]) && IsSuffixText(t[i..]);
      UnderscoreSplit(t, i);
      VersionSuffixIsLookahead(t[1..i], t[i..]);
    }
  }

  /** The tail language starts `k` characters into `s`. */
  predicate TailAt(s: string, k: int) {
    0 <= k <= |s| && IsTail(s[k..])
  }

  lemma LookaheadAtIff(s: string)
    ensures forall k :: SucceedsAt(VersionThenSuffix, s, k) <==> TailAt(s, k)
  {
    forall k | 0 <= k <= |s|
      ensures VersionThenSuffix(s[k..]).Success? <==> IsTail(s[k..])
    {
      if VersionThenSuffix(s[k..]).Success? {
        LookaheadIsTail(s[k..]);
      }
      if IsTail(s[k..]) {
        TailIsLookahead(s[k..]);
      }
    }
  }

  lemma TailAtShift(s: string, n: nat)
    requires n <= |s|
    ensures forall k :: n <= k ==> (TailAt(s, k) <==> TailAt(s[n..], k - n))
  {
    forall k | n <= k <= |s|
      ensures s[k..] == s[n..][k - n..]
    {
    }
  }

  /** `parse_user_tag`: `user`, then the shortest run of characters after
      which the rest of the input is in the tail language; that rest is left
      in the input. */
  function ParseUserTag(s: string): (r: Res<string>)
    ensures r.Success? ==> "user" <= s && s == "user" + r.value + r.rest && TailAt(s, 4 + |r.value|)
    ensures r.Success? ==> forall k :: 4 <= k < 4 + |r.value| ==> !TailAt(s, k)
    ensures r.Failure? && !("user" <= s) ==> r.rest == s
    ensures r.Failure? && "user" <= s ==> r.rest == [] && forall k :: 4 <= k ==> !TailAt(s, k)
  {
    match Tag("user", s)
    case Failure(rest) => Failure(rest)
    case Success(input, _) =>
      LookaheadAtIff(input);
      TailAtShift(s, 4);
      ScanUntil(VersionThenSuffix, input)
  }

  /** The user tag ends at the first position where the tail language starts. */
  lemma ParseUserTagAt(s: string, k: nat)
    requires "user" <= s && TailAt(s, k) && 4 <= k
    requires forall j :: 4 <= j < k ==> !TailAt(s, j)
    ensures ParseUserTag(s) == Success(s[k..], s[4..k])
  {
    var r := ParseUserTag(s);
    assert r.Success?;
    assert |r.value| == k - 4;
  }

  // ---------------------------------------------------------------------
  // The whole name
  // ---------------------------------------------------------------------

  /** `parse`: internal tag if any, user tag, version if any, suffix. */
  function Parse(s: string): (r: Res<SaveNameInfo>)
    ensures r.Success? ==> r.rest == []
  {
    match Opt(ParseTagInternal, s)
    case Failure(rest) => Failure(rest)
    case Success(input, internal_tag) =>
      match ParseUserTag(input)
      case Failure(rest) => Failure(rest)
      case Success(input', user_tag) =>
        match OptVersion(input')
        case Failure(rest) => Failure(rest)
        case Success(input'', ver) =>
          match ParseSuffix(input'')
          case Failure(rest) => Failure(rest)
          case Success(input''', backup) =>
            Success(input''', SaveNameInfo(user_tag, ver, backup, internal_tag))
  }
}
