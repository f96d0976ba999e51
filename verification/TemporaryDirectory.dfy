/**
 The names of scenario scratch directories
 (integration-tests/src/Framework/TemporaryDirectory.cxx): `<name>-<pid>-<sequence>` with the
 name made safe for a path and the sequence number padded to four digits.
 */
module TemporaryDirectory {
  import opened CodeUnits
  import opened Wrappers

  const DASH: Unit := 45
  const UNDERSCORE: Unit := 95
  const WIDTH: nat := 0x1_0000_0000

  predicate Acceptable(u: Unit) {
    || 97 <= u <= 122 || 65 <= u <= 90 || IsDigit(u)
    || u == DOT || u == UNDERSCORE || u == DASH
  }

  function Sanitised(name: Str): (r: Str)
    ensures |r| == |name|
    ensures forall i :: 0 <= i < |r| ==> Acceptable(r[i]) && r[i] == (if Acceptable(name[i]) then name[i] else UNDERSCORE)
  {
    seq(|name|, i requires 0 <= i < |name| => if Acceptable(name[i]) then name[i] else UNDERSCORE)
  }

  method SanitiseName(name: Str) returns (r: Str)
    ensures r == Sanitised(name)
    ensures (forall i :: 0 <= i < |name| ==> Acceptable(name[i])) ==> r == name
  {
    r := [];
    for k := 0 to |name|
      invariant r == Sanitised(name)[..k]
    {
      var u := name[k];
      var acceptable :=
        || (u >= 97 && u <= 122)
        || (u >= 65 && u <= 90)
        || (u >= 48 && u <= 57)
        || u == DOT || u == UNDERSCORE || u == DASH;
      r := r + [if acceptable then u else UNDERSCORE];
    }
  }

  /** `{:04}`: at least four digits. */
  function Padded(n: nat): (r: Str)
    ensures |r| >= 4 && forall i :: 0 <= i < |r| ==> IsDigit(r[i])
  {
    var digits := Dec(n);
    if |digits| >= 4 then digits else seq(4 - |digits|, i => 48) + digits
  }

  function Component(name: Str, pid: nat, sequence: nat): Str {
    Sanitised(name) + [DASH] + Dec(pid) + [DASH] + Padded(sequence)
  }

  /** One path component that names neither the directory itself nor its parent. */
  predicate SafeComponent(s: Str) {
    && s != [] && s != [DOT] && s != [DOT, DOT]
    && forall i :: 0 <= i < |s| ==> s[i] != 0 && s[i] != 47
  }

  lemma ComponentIsSafe(name: Str, pid: nat, sequence: nat)
    ensures SafeComponent(Component(name, pid, sequence))
    ensures forall i :: 0 <= i < |Component(name, pid, sequence)| ==> Acceptable(Component(name, pid, sequence)[i])
  {
    hide Dec, Padded, Sanitised;
    var s := Component(name, pid, sequence);
    assert |s| >= 6;
  }

  lemma PaddedValue(n: nat)
    ensures Value(10, Padded(n)) == n
  {
    hide Value, Dec;
    var digits := Dec(n);
    DecValue(n);
    if |digits| < 4 {
      LeadingZeros(seq(4 - |digits|, i => 48), digits);
    }
  }

  /** The digits after the last dash are determined by the whole. */
  lemma LastField(a: Str, d: Str, b: Str, e: Str)
    requires forall i :: 0 <= i < |d| ==> IsDigit(d[i])
    requires forall i :: 0 <= i < |e| ==> IsDigit(e[i])
    requires a + [DASH] + d == b + [DASH] + e
    ensures a == b && d == e
  {
    var s, t := a + [DASH] + d, b + [DASH] + e;
    assert s[|a|] == DASH && t[|b|] == DASH;
    assert forall i :: |a| < i < |s| ==> s[i] == d[i - |a| - 1];
    assert forall i :: |b| < i < |t| ==> t[i] == e[i - |b| - 1];
    assert s[..|a|] == a && t[..|b|] == b && s[|a| + 1..] == d && t[|b| + 1..] == e;
  }

  /**
   Although sanitising loses information, a directory name determines the process and the
   sequence number, also for sequence numbers beyond four digits.
   */
  lemma ComponentDetermines(name: Str, pid: nat, sequence: nat, name': Str, pid': nat, sequence': nat)
    ensures Component(name, pid, sequence) == Component(name', pid', sequence')
            <==> Sanitised(name) == Sanitised(name') && pid == pid' && sequence == sequence'
  {
    hide Dec, Padded, Sanitised, Value;
    if Component(name, pid, sequence) == Component(name', pid', sequence') {
      LastField(Sanitised(name) + [DASH] + Dec(pid), Padded(sequence),
                Sanitised(name') + [DASH] + Dec(pid'), Padded(sequence'));
      LastField(Sanitised(name), Dec(pid), Sanitised(name'), Dec(pid'));
      DecValue(pid);
      DecValue(pid');
      PaddedValue(sequence);
      PaddedValue(sequence');
    }
  }

  function LastDash(s: Str): (r: Option<nat>)
    ensures r.Some? ==> r.value < |s| && s[r.value] == DASH && DASH !in s[r.value + 1..]
    ensures r.None? ==> DASH !in s
  {
    if s == [] then None
    else if s[|s| - 1] == DASH then Some(|s| - 1)
    else
      var r := LastDash(s[..|s| - 1]);
      assert s == s[..|s| - 1] + [s[|s| - 1]];
      assert r.Some? ==> s[r.value + 1..] == s[..|s| - 1][r.value + 1..] + [s[|s| - 1]];
      r
  }

  lemma {:induction false} LastDashIs(before: Str, digits: Str)
    requires DASH !in digits
    ensures LastDash(before + [DASH] + digits) == Some(|before|)
    decreases |digits|
  {
    var s := before + [DASH] + digits;
    if digits == [] {
      assert s[|s| - 1] == DASH;
    } else {
      var n := |digits| - 1;
      LastDashIs(before, digits[..n]);
      assert s[..|s| - 1] == before + [DASH] + digits[..n];
      assert s[|s| - 1] == digits[n];
    }
  }

  /** The fields of a directory name, read from its end: name, process and sequence number. */
  function ReadComponent(s: Str): Option<(Str, Str, Str)> {
    var second := LastDash(s);
    if second.None? then None
    else
      var first := LastDash(s[..second.value]);
      if first.None? then None
      else Some((s[..first.value], s[first.value + 1..second.value], s[second.value + 1..]))
  }

  /** A directory name is the safe name, the process and the sequence number in this order, the last with at least four digits. */
  lemma ComponentReads(name: Str, pid: nat, sequence: nat)
    ensures var fields := ReadComponent(Component(name, pid, sequence));
            && fields.Some? && fields.value.0 == Sanitised(name)
            && Value(10, fields.value.1) == pid && Value(10, fields.value.2) == sequence
            && |fields.value.2| >= 4 && (|fields.value.2| > 4 ==> sequence >= 10000)
  {
    hide Dec, Padded, Sanitised, Value;
    var front, digits := Sanitised(name) + [DASH] + Dec(pid), Padded(sequence);
    LastDashIs(front, digits);
    LastDashIs(Sanitised(name), Dec(pid));
    var s := Component(name, pid, sequence);
    assert s[..|front|] == front && s[|front| + 1..] == digits;
    assert front[..|Sanitised(name)|] == Sanitised(name) && s[|Sanitised(name)| + 1..|front|] == Dec(pid);
    DecValue(pid);
    PaddedValue(sequence);
    PaddedLength(sequence);
  }

  lemma PaddedLength(n: nat)
    ensures |Padded(n)| > 4 ==> n >= 10000
  {
    if n < 10000 {
      assert |Dec(n)| <= 4 by { ShortDec(n); }
    }
  }

  lemma ShortDec(n: nat)
    requires n < 10000
    ensures |Dec(n)| <= 4
  {
    var tens, hundreds := n / 10, n / 100;
    assert tens / 10 == hundreds && hundreds / 10 < 10;
    assert hundreds >= 10 ==> |Dec(hundreds)| == |Dec(hundreds / 10)| + 1;
    assert |Dec(hundreds)| <= 2;
    assert tens >= 10 ==> |Dec(tens)| == |Dec(hundreds)| + 1;
    assert n >= 10 ==> |Dec(n)| == |Dec(tens)| + 1;
  }

  /** Two different names can become the same. */
  lemma SanitisingIsNotInjective()
    ensures Ascii("a b") != Ascii("a_b") && Sanitised(Ascii("a b")) == Sanitised(Ascii("a_b"))
  {
    var s, t := Ascii("a b"), Ascii("a_b");
    assert s[1] == 32 && t[1] == 95;
    assert s[0] == t[0] == 97 && s[2] == t[2] == 98;
  }

  // ----- the process-wide counter -----

  /** The process: its id and its 32-bit sequence counter. */
  class Scratch {
    const pid: nat
    var sequence: nat

    ghost predicate Valid()
      reads this
    {
      sequence < WIDTH
    }

    constructor (pid: nat)
      ensures Valid() && this.pid == pid && sequence == 0
    {
      this.pid, sequence := pid, 0;
    }

    /** Takes the next sequence number and names a directory with it. */
    method Create(name: Str) returns (component: Str)
      requires Valid()
      modifies this
      ensures Valid() && sequence == (old(sequence) + 1) % WIDTH
      ensures component == Component(name, pid, old(sequence))
      ensures SafeComponent(component)
    {
      var taken := sequence;
      sequence := (sequence + 1) % WIDTH;
      var safe := SanitiseName(name);
      component := safe + [DASH] + Dec(pid) + [DASH] + Padded(taken);
      ComponentIsSafe(name, pid, taken);
    }
  }

  method CreateAll(scratch: Scratch, names: seq<Str>) returns (components: seq<Str>)
    requires scratch.Valid() && scratch.sequence == 0
    modifies scratch
    ensures |components| == |names|
    ensures forall k :: 0 <= k < |names| ==> components[k] == Component(names[k], scratch.pid, k % WIDTH)
    ensures forall j, k :: 0 <= j < k < |names| && k - j < WIDTH ==> components[j] != components[k]
  {
    hide Component;
    components := [];
    for i := 0 to |names|
      invariant scratch.Valid() && scratch.sequence == i % WIDTH
      invariant |components| == i
      invariant forall k :: 0 <= k < i ==> components[k] == Component(names[k], scratch.pid, k % WIDTH)
    {
      var component := scratch.Create(names[i]);
      components := components + [component];
    }
    forall j, k | 0 <= j < k < |names| && k - j < WIDTH ensures components[j] != components[k] {
      CreatedApart(scratch.pid, names[j], j, names[k], k);
    }
  }

  lemma SameTurn(j: nat, k: nat)
    requires j < k
    ensures j % WIDTH == k % WIDTH <==> (k - j) % WIDTH == 0
  {
    var a, b, c := j % WIDTH, k % WIDTH, (k - j) % WIDTH;
    var q := (k - j) / WIDTH - k / WIDTH + j / WIDTH;
    assert c - b + a == -(q * WIDTH);
    assert -2 < q < 2;
  }

  /** Two directories made in one process get the same name exactly when a full turn of the counter lies between them and their names agree after sanitising. */
  lemma CreatedApart(pid: nat, name: Str, j: nat, name': Str, k: nat)
    requires j < k
    ensures Component(name, pid, j % WIDTH) == Component(name', pid, k % WIDTH)
            <==> Sanitised(name) == Sanitised(name') && (k - j) % WIDTH == 0
    ensures k - j < WIDTH ==> Component(name, pid, j % WIDTH) != Component(name', pid, k % WIDTH)
  {
    hide Component, Sanitised;
    ComponentDetermines(name, pid, j % WIDTH, name', pid, k % WIDTH);
    SameTurn(j, k);
  }
}
