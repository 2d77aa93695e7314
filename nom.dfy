/** The optional value used for every optional field and for `opt`. */
module Wrappers {

  datatype Option<+T> = None | Some(value: T)
}

/**
 * The parser combinators the save-name grammar is built from, modelled on
 * the complete-input variants of the nom library working over `&str`.
 *
 * A parser takes the remaining input and either fails, reporting the
 * remainder at which it failed, or succeeds with the remainder left after
 * the prefix it consumed and the value it recognised.
 */
module Nom {

  import opened Wrappers

  datatype Res<+T> = Failure(rest: string) | Success(rest: string, value: T)

  type Parser<T> = string -> Res<T>

  /** ASCII decimal digit, as `char::is_ascii_digit`. */
  predicate IsDigit(c: char) {
    '0' <= c <= '9'
  }

  predicate AllDigits(s: string) {
    forall i :: 0 <= i < |s| ==> IsDigit(s[i])
  }

  predicate StartsWithDigit(s: string) {
    |s| > 0 && IsDigit(s[0])
  }

  /** `tag(t)`: the literal `t` at the start of the input. */
  function Tag(t: string, s: string): (r: Res<string>)
    ensures r.Success? <==> t <= s
    ensures r.Success? ==> r.value == t && r.rest == s[|t|..] && s == t + r.rest
    ensures r.Failure? ==> r.rest == s
  {
    if t <= s then Success(s[|t|..], t) else Failure(s)
  }

  /** `t` occurs in `s` starting at position `j`. */
  predicate OccursAt(t: string, s: string, j: int) {
    0 <= j <= |s| && t <= s[j..]
  }

  predicate Occurs(t: string, s: string) {
    exists j :: 0 <= j <= |s| && OccursAt(t, s, j)
  }

  /** An occurrence after the first character is an occurrence in the rest. */
  lemma OccursAtShift(t: string, s: string)
    requires s != []
    ensures forall j :: 1 <= j <= |s| ==> (OccursAt(t, s, j) <==> OccursAt(t, s[1..], j - 1))
  {
    forall j | 1 <= j <= |s|
      ensures s[j..] == s[1..][j - 1..]
    {
    }
  }

  /** The position of the first occurrence of `t` in `s`, if there is one. */
  function IndexOf(t: string, s: string): (k: Option<nat>)
    ensures k.Some? ==> OccursAt(t, s, k.value)
    ensures k.Some? ==> forall j :: 0 <= j < k.value ==> !OccursAt(t, s, j)
    ensures k.None? ==> !Occurs(t, s)
    decreases |s|
  {
    if t <= s then
      Some(0)
    else if s == [] then
      None
    else
      var k := IndexOf(t, s[1..]);
      OccursAtShift(t, s);
      if k.None? then None else Some(k.value + 1)
  }

  /** `take_until(t)`: everything before the first occurrence of `t`, which
      stays in the input; fails without consuming when `t` does not occur. */
  function TakeUntil(t: string, s: string): (r: Res<string>)
    ensures r.Success? ==> s == r.value + r.rest && t <= r.rest
    ensures r.Success? ==> forall j :: 0 <= j < |r.value| ==> !OccursAt(t, s, j)
    ensures r.Failure? <==> !Occurs(t, s)
    ensures r.Failure? ==> r.rest == s
  {
    match IndexOf(t, s)
    case None => Failure(s)
    case Some(k) => Success(s[k..], s[..k])
  }

  /** `take(1usize)`: one character; fails on empty input. */
  function Take1(s: string): (r: Res<string>)
    ensures r.Failure? <==> s == []
    ensures r.Success? ==> |r.value| == 1 && s == r.value + r.rest
    ensures r.Failure? ==> r.rest == s
  {
    if s == [] then Failure(s) else Success(s[1..], s[..1])
  }

  /** `digit0`: the longest run of ASCII digits at the start, possibly empty. */
  function Digit0(s: string): (r: Res<string>)
    ensures r.Success?
    ensures s == r.value + r.rest && AllDigits(r.value) && !StartsWithDigit(r.rest)
    decreases |s|
  {
    if StartsWithDigit(s) then
      var t := Digit0(s[1..]);
      Success(t.rest, [s[0]] + t.value)
    else
      Success(s, [])
  }

  /** `digit1`: like `digit0`, but fails without consuming when no digit is there. */
  function Digit1(s: string): (r: Res<string>)
    ensures r.Success? <==> StartsWithDigit(s)
    ensures r.Success? ==> s == r.value + r.rest && r.value != [] && AllDigits(r.value)
    ensures r.Success? ==> !StartsWithDigit(r.rest)
    ensures r.Failure? ==> r.rest == s
  {
    var t := Digit0(s);
    if t.value == [] then Failure(s) else t
  }

  /** `eof`: succeeds exactly on empty input. */
  function Eof(s: string): (r: Res<string>)
    ensures r.Success? <==> s == []
    ensures r.rest == s
  {
    if s == [] then Success(s, s) else Failure(s)
  }

  /** `opt(p)`: a failure of `p` becomes `None`, consuming nothing. */
  function Opt<T>(p: Parser<T>, s: string): (r: Res<Option<T>>)
    ensures r.Success?
    ensures r.value.Some? <==> p(s).Success?
    ensures r.value.None? ==> r.rest == s
    ensures r.value.Some? ==> r.value.value == p(s).value && r.rest == p(s).rest
  {
    match p(s)
    case Failure(_) => Success(s, None)
    case Success(rest, v) => Success(rest, Some(v))
  }

  /** `peek(p)`: runs `p` and, on success, gives back the input untouched. */
  function Peek<T>(p: Parser<T>, s: string): (r: Res<T>)
    ensures r.Success? <==> p(s).Success?
    ensures r.Success? ==> r.rest == s && r.value == p(s).value
  {
    match p(s)
    case Failure(rest) => Failure(rest)
    case Success(_, v) => Success(s, v)
  }

  /** `preceded(p, q)`: `p` then `q`, keeping only the value of `q`. */
  function Preceded<A, B>(p: Parser<A>, q: Parser<B>, s: string): (r: Res<B>)
    ensures p(s).Failure? ==> r == Failure(p(s).rest)
    ensures p(s).Success? ==> r == q(p(s).rest)
  {
    match p(s)
    case Failure(rest) => Failure(rest)
    case Success(rest, _) => q(rest)
  }

  /** `p` succeeds on what is left of `s` after `k` characters. */
  predicate SucceedsAt<T>(p: Parser<T>, s: string, k: int) {
    0 <= k <= |s| && p(s[k..]).Success?
  }

  lemma SucceedsAtShift<T>(p: Parser<T>, s: string)
    requires s != []
    ensures forall k :: 1 <= k <= |s| ==> (SucceedsAt(p, s, k) <==> SucceedsAt(p, s[1..], k - 1))
  {
    forall k | 1 <= k <= |s|
      ensures s[k..] == s[1..][k - 1..]
    {
    }
  }

  /**
   * `recognize(many_till(take(1), peek(p)))`: before taking each character,
   * tries `p` on what is left; stops at the first position where `p`
   * succeeds and yields the characters taken up to there. When the input
   * runs out first, `take(1)` fails on the empty remainder and that failure
   * is what `many_till` reports.
   */
  function ScanUntil<T>(p: Parser<T>, s: string): (r: Res<string>)
    ensures r.Success? ==> s == r.value + r.rest && SucceedsAt(p, s, |r.value|)
    ensures r.Success? ==> forall k :: 0 <= k < |r.value| ==> !SucceedsAt(p, s, k)
    ensures r.Failure? ==> r.rest == [] && forall k :: !SucceedsAt(p, s, k)
    decreases |s|
  {
    if Peek(p, s).Success? then
      assert s[0..] == s;
      Success(s, [])
    else
      var c := Take1(s);
      if c.Failure? then
        Failure(c.rest)
      else
        var t := ScanUntil(p, c.rest);
        if t.Failure? then
          ScanUntilFails(p, s);
          t
        else
          ScanUntilTakes(p, s, t.value, t.rest);
          Success(t.rest, c.value + t.value)
  }

  /** One character taken before the stop of the rest of the scan. */
  lemma ScanUntilTakes<T>(p: Parser<T>, s: string, value: string, rest: string)
    requires s != [] && !p(s).Success?
    requires s[1..] == value + rest && SucceedsAt(p, s[1..], |value|)
    requires forall k :: 0 <= k < |value| ==> !SucceedsAt(p, s[1..], k)
    ensures s == s[..1] + value + rest && SucceedsAt(p, s, 1 + |value|)
    ensures forall k :: 0 <= k < 1 + |value| ==> !SucceedsAt(p, s, k)
  {
    SucceedsAtShift(p, s);
    assert s[0..] == s;
    Assoc3(s[..1], value, rest);
  }

  /** No stop in the rest of the input and none at its start: no stop at all. */
  lemma ScanUntilFails<T>(p: Parser<T>, s: string)
    requires s != [] && !p(s).Success?
    requires forall k :: !SucceedsAt(p, s[1..], k)
    ensures forall k :: !SucceedsAt(p, s, k)
  {
    SucceedsAtShift(p, s);
    assert s[0..] == s;
  }

  /** ScanUntil stops at the first position where `p` succeeds, wherever it is. */
  lemma ScanUntilStopsAt<T>(p: Parser<T>, s: string, k: nat)
    requires SucceedsAt(p, s, k)
    requires forall j :: 0 <= j < k ==> !SucceedsAt(p, s, j)
    ensures ScanUntil(p, s) == Success(s[k..], s[..k])
  {
    var r := ScanUntil(p, s);
    assert r.Success?;
    assert SucceedsAt(p, s, |r.value|);
  }

  /** Regrouping a concatenation of three strings. */
  lemma Assoc3(a: string, b: string, c: string)
    ensures a + b + c == a + (b + c)
  {
  }

  /** Regrouping a concatenation of four strings. */
  lemma Assoc(a: string, b: string, c: string, d: string)
    ensures a + b + c + d == a + (b + (c + d))
  {
  }

  /** digit0 on a run of digits followed by a non-digit consumes exactly the run. */
  lemma {:induction false} Digit0Exact(d: string, t: string)
    requires AllDigits(d) && !StartsWithDigit(t)
    ensures Digit0(d + t) == Success(t, d)
    decreases |d|
  {
    if d == [] {
      assert d + t == t;
    } else {
      assert (d + t)[1..] == d[1..] + t;
      Digit0Exact(d[1..], t);
      assert [d[0]] + d[1..] == d;
    }
  }
}
