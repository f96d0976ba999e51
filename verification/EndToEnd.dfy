/**
 The message compiler from source text to run-time lookup: every message of a well-formed file
 is found under its id with the text its author wrote for it.
 */
module EndToEnd {
  import opened CodeUnits
  import opened McParser
  import opened McRoundTrip
  import opened MessageTable
  import opened WideLiteral
  import opened Wrappers

  /** The lines last given for a language. */
  function LastText(bodies: seq<Body>, language: Str): Option<seq<Str>> {
    if bodies == [] then None
    else if bodies[|bodies| - 1].language == language then Some(bodies[|bodies| - 1].lines)
    else LastText(bodies[..|bodies| - 1], language)
  }

  /** The text an entry intends: its last English text, else the last text of its first language. */
  function IntendedText(e: Entry): Str {
    match LastText(e.bodies, Ascii("English"))
    case Some(lines) => JoinLines(lines)
    case None =>
      if e.bodies == [] then []
      else match LastText(e.bodies, e.bodies[0].language)
        case Some(lines) => JoinLines(lines)
        case None => []
  }

  // ----- the dictionary of bodies -----

  lemma {:induction false} GetSetBody(bodies: seq<Body>, language: Str, lines: seq<Str>, other: Str)
    ensures GetBody(SetBody(bodies, language, lines), other)
            == if other == language then Some(lines) else GetBody(bodies, other)
  {
    if bodies != [] && bodies[0].language != language {
      GetSetBody(bodies[1..], language, lines, other);
    }
  }

  lemma {:induction false} CollectSnoc(bodies: seq<Body>, more: seq<Body>, last: Body)
    ensures Collect(bodies, more + [last]) == SetBody(Collect(bodies, more), last.language, last.lines)
    decreases |more|
  {
    hide SetBody;
    if more == [] {
      assert more + [last] == [last] && [last][1..] == [];
    } else {
      CollectSnoc(SetBody(bodies, more[0].language, more[0].lines), more[1..], last);
      assert (more + [last])[1..] == more[1..] + [last];
    }
  }

  lemma {:induction false} CollectGet(bodies: seq<Body>, language: Str)
    ensures GetBody(Collect([], bodies), language) == LastText(bodies, language)
  {
    if bodies != [] {
      var most, last := bodies[..|bodies| - 1], bodies[|bodies| - 1];
      assert bodies == most + [last];
      CollectGet(most, language);
      CollectSnoc([], most, last);
      GetSetBody(Collect([], most), last.language, last.lines, language);
    }
  }

  lemma {:induction false} CollectFirst(bodies: seq<Body>)
    requires bodies != []
    ensures Collect([], bodies) != [] && Collect([], bodies)[0].language == bodies[0].language
  {
    var most, last := bodies[..|bodies| - 1], bodies[|bodies| - 1];
    assert bodies == most + [last];
    CollectSnoc([], most, last);
    if most != [] {
      CollectFirst(most);
    }
  }

  lemma PreferredIsIntended(e: Entry, lastId: nat, at: nat)
    ensures PreferredBody(MessageOf(e, lastId, at)) == IntendedText(e)
  {
    hide Collect, LastText;
    CollectGet(e.bodies, ENGLISH);
    if e.bodies != [] {
      CollectFirst(e.bodies);
      CollectGet(e.bodies, e.bodies[0].language);
    } else {
      CollectNothing();
    }
  }

  lemma CollectNothing()
    ensures Collect([], []) == []
  {
  }

  // ----- ids -----

  const WIDTH := 0x1_0000_0000

  /** The last entry up to the `k`-th that has an id of its own. */
  function LastGiven(entries: seq<Entry>, k: nat): (r: Option<nat>)
    requires k < |entries|
    ensures r.Some? ==> r.value <= k && entries[r.value].id.Some? && forall j :: r.value < j <= k ==> entries[j].id.None?
    ensures r.None? ==> forall j :: 0 <= j <= k ==> entries[j].id.None?
  {
    if entries[k].id.Some? then Some(k) else if k == 0 then None else LastGiven(entries, k - 1)
  }

  /** The id of the `k`-th entry: the last one given plus the entries since, counted from 0 if none is, modulo 2^32. */
  function IdAt(entries: seq<Entry>, k: nat): nat
    requires k < |entries|
  {
    match LastGiven(entries, k)
    case Some(j) => (entries[j].id.value.value + (k - j)) % WIDTH
    case None => (k + 1) % WIDTH
  }

  lemma {:induction false} MessageAt(entries: seq<Entry>, end: seq<Str>, lastId: nat, at: nat, k: nat)
    requires k < |entries|
    ensures var m := MessagesOf(entries, end, lastId, at)[k];
            && m.symbolicName == entries[k].symbolicName && m.severity == entries[k].severity
            && m.facility == entries[k].facility && PreferredBody(m) == IntendedText(entries[k])
            && (entries[k].id.Some? ==> m.id == entries[k].id.value.value)
            && (entries[k].id.None? ==>
                  m.id == NextId(if k == 0 then lastId else MessagesOf(entries, end, lastId, at)[k - 1].id))
    decreases k
  {
    hide PreferredBody, IntendedText, NextAt, NextId;
    PreferredIsIntended(entries[0], lastId, at);
    if k > 0 {
      MessageAt(entries[1..], end, IdOf(entries[0], lastId), NextAt(entries[0], entries[1..], end, at), k - 1);
    }
  }

  lemma NextOf(n: nat)
    ensures NextId(n % WIDTH) == (n + 1) % WIDTH
  {
  }

  lemma {:induction false} MessageId(entries: seq<Entry>, end: seq<Str>, at: nat, k: nat)
    requires k < |entries|
    requires forall i :: 0 <= i < |entries| && entries[i].id.Some? ==> entries[i].id.value.value < WIDTH
    ensures MessagesOf(entries, end, 0, at)[k].id == IdAt(entries, k)
    decreases k
  {
    hide MessagesOf, PreferredBody, IntendedText, NextId;
    MessageAt(entries, end, 0, at, k);
    if entries[k].id.None? {
      if k == 0 {
        NextOf(0);
      } else {
        MessageId(entries, end, at, k - 1);
        match LastGiven(entries, k - 1)
        case Some(j) => NextOf(entries[j].id.value.value + (k - 1 - j));
        case None => NextOf(k);
      }
    }
  }

  lemma GoodIds(c: Canonical)
    requires Good(c)
    ensures forall i :: 0 <= i < |c.entries| && c.entries[i].id.Some? ==> c.entries[i].id.value.value < WIDTH
  {
    hide GoodGap, GoodValue, GoodBody;
    assert forall i :: 0 <= i < |c.entries| ==> GoodEntry(c.entries[i]);
  }

  // ----- from source text to lookup -----

  /**
   The whole chain on a well-formed file with distinct ids and readable texts: looking up the
   id of any entry gives that entry's intended text, up to its first NUL if it has one.
   */
  method ResolveEntry(c: Canonical, rule: HexRule, k: nat) returns (r: Lookup)
    requires Good(c) && k < |c.entries|
    requires forall i, j :: 0 <= i < j < |c.entries| ==> IdAt(c.entries, i) != IdAt(c.entries, j)
    requires forall i :: 0 <= i < |c.entries| ==> Readable(rule, IntendedText(c.entries[i]))
    ensures r == Found(Pointed(IntendedText(c.entries[k])))
    ensures 0 !in IntendedText(c.entries[k]) ==> r == Found(IntendedText(c.entries[k]))
  {
    hide Good, Readable, Denotes, EntryOf, Pointed, IntendedText, PreferredBody, MessagesOf, IdAt, ParseSource, Render;
    ParseInvertsRender(c);
    GoodIds(c);
    ghost var at := |c.header| + |GapBefore(c.entries, c.end)|;
    ghost var ms := MessagesOf(c.entries, c.end, 0, at);
    forall i | 0 <= i < |ms|
      ensures PreferredBody(ms[i]) == IntendedText(c.entries[i]) && ms[i].id == IdAt(c.entries, i)
    {
      MessageAt(c.entries, c.end, 0, at, i);
      MessageId(c.entries, c.end, at, i);
    }
    assert ms[k] in ms;
    assert FileOf(c).messages == ms;
    var id := IdAt(c.entries, k);
    r := Resolve(Render(c), rule, id);
  }
}
