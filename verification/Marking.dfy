/** The moment in which `process_response` has the mark of a notify entry down: what other threads can do to the
    table then, and when treating the completion as one step makes no difference. */
module Marking {
  import opened Base
  import opened Requests

  /** A section of `call_method` run by another thread, or by the callback itself: an entry goes in, a failed call
      takes its mark down, or takes its entry out. */
  datatype Step = Enter(id: Id, e: Entry) | Unmark(id: Id) | Withdraw(id: Id)

  ghost function Apply(t: Table, s: Step): Table {
    match s
    case Enter(id, e) => (match Insert(t, id, e) case None => t case Some(t') => t')
    case Unmark(id) => if id in t then t[id := Entry(ENOERROR, [])] else t
    case Withdraw(id) => Removed(t, id)
  }

  ghost function Run(t: Table, steps: seq<Step>): Table
    decreases |steps|
  {
    if steps == [] then t else Run(Apply(t, steps[0]), steps[1..])
  }

  /** The code that the callback is to see takes the place of the mark. */
  function Shown(t: Table, id: Id, code: int): Table
    requires id in t
  {
    t[id := Entry(code, t[id].text)]
  }

  function Remarked(t: Table, id: Id): Table {
    if id in t then t[id := Entry(ENOTIFY_MARK, t[id].text)] else t
  }

  /** A completion as the code runs it, with other sections between showing the code and putting the mark back. */
  ghost function WithGap(t: Table, id: Id, code: int, steps: seq<Step>): Table
    requires id in t
  {
    Remarked(Run(Shown(t, id, code), steps), id)
  }

  /** The sections are of other calls, and ids are not used twice. */
  ghost predicate Foreign(t: Table, steps: seq<Step>, id: Id)
    decreases |steps|
  {
    steps != [] ==>
      && steps[0].id != id && (steps[0].Enter? ==> steps[0].id !in t)
      && Foreign(Apply(t, steps[0]), steps[1..], id)
  }

  /** A notify call for this name. */
  predicate Asks(s: Step, name: Bytes) { s.Enter? && s.e.ec != 0 && s.e.text == name }

  /** The first notify call for this name gets in, and the next one only after it has given up. */
  function NextIntruder(inside: Option<Id>, s: Step, name: Bytes): Option<Id> {
    if inside.None? && Asks(s, name) then Some(s.id)
    else if s.Unmark? && inside == Some(s.id) then None
    else inside
  }

  /** Which notify call for this name gets in during the gap, and has not given up by its end: read off the steps
      alone, `inside` being the one that is in already. */
  function Intruder(inside: Option<Id>, steps: seq<Step>, name: Bytes): Option<Id>
    decreases |steps|
  {
    if steps == [] then inside else Intruder(NextIntruder(inside, steps[0], name), steps[1..], name)
  }

  /** During a gap with the mark down: the intruder has the one mark for the name. */
  ghost predicate InGap(t: Table, id: Id, name: Bytes, inside: Option<Id>) {
    && OneMarkPerService(t) && id in t && t[id] == Entry(ENOERROR, name)
    && (inside.None? ==> !Repeats(t, name))
    && (inside.Some? ==> Marked(t, inside.value) && t[inside.value].text == name)
  }

  lemma StepInGap(t: Table, s: Step, id: Id, name: Bytes, inside: Option<Id>)
    requires InGap(t, id, name, inside) && s.id != id && (s.Enter? ==> s.id !in t)
    ensures InGap(Apply(t, s), id, name, NextIntruder(inside, s, name))
  {
    if s.Enter? && inside.None? && Asks(s, name) {
      assert Marked(Apply(t, s), s.id);
    } else if !s.Enter? {
      assert forall k :: Marked(Apply(t, s), k) ==> Marked(t, k) && Apply(t, s)[k] == t[k];
    } else {
      assert forall k :: Marked(Apply(t, s), k) && Apply(t, s)[k].text == name ==> Marked(t, k) && t[k].text == name;
    }
  }

  lemma {:induction false} RunInGap(t: Table, steps: seq<Step>, id: Id, name: Bytes, inside: Option<Id>)
    requires InGap(t, id, name, inside) && Foreign(t, steps, id)
    ensures InGap(Run(t, steps), id, name, Intruder(inside, steps, name))
    decreases |steps|
  {
    hide InGap, Apply;
    if steps != [] {
      StepInGap(t, steps[0], id, name, inside);
      RunInGap(Apply(t, steps[0]), steps[1..], id, name, NextIntruder(inside, steps[0], name));
    }
  }

  /** With a code other than 0 the mark is only replaced by another one: the entry still counts as marked. */
  ghost predicate InFullView(t: Table, id: Id, e: Entry) {
    OneMarkPerService(t) && id in t && t[id] == e && e.ec != 0
  }

  lemma {:induction false} RunInFullView(t: Table, steps: seq<Step>, id: Id, e: Entry)
    requires InFullView(t, id, e) && Foreign(t, steps, id)
    ensures InFullView(Run(t, steps), id, e)
    decreases |steps|
  {
    if steps != [] {
      assert InFullView(Apply(t, steps[0]), id, e);
      RunInFullView(Apply(t, steps[0]), steps[1..], id, e);
    }
  }

  /** After a completion there is still one marked entry per name if, and only if, the mark was never down, or no
      notify call for that name has got in meanwhile and stayed. */
  lemma OneMarkAfterGapIff(t: Table, id: Id, code: int, steps: seq<Step>)
    requires OneMarkPerService(t) && Marked(t, id) && Foreign(Shown(t, id, code), steps, id)
    ensures OneMarkPerService(WithGap(t, id, code, steps))
      <==> code != ENOERROR || Intruder(None, steps, t[id].text).None?
  {
    var name := t[id].text;
    var u := Run(Shown(t, id, code), steps);
    if code == ENOERROR {
      assert InGap(Shown(t, id, code), id, name, None);
      RunInGap(Shown(t, id, code), steps, id, name, None);
      hide Run, Foreign;
      MarkPutBack(u, id, name, Intruder(None, steps, name));
    } else {
      assert InFullView(Shown(t, id, code), id, Entry(code, name));
      RunInFullView(Shown(t, id, code), steps, id, Entry(code, name));
    }
  }

  lemma MarkPutBack(u: Table, id: Id, name: Bytes, inside: Option<Id>)
    requires InGap(u, id, name, inside)
    ensures OneMarkPerService(Remarked(u, id)) <==> inside.None?
  {
    var v := Remarked(u, id);
    assert Marked(v, id) && v[id].text == name;
    if inside.Some? {
      assert Marked(v, inside.value) && v[inside.value].text == name && inside.value != id;
    } else {
      assert forall k :: Marked(u, k) ==> u[k].text != name;
    }
  }

  /** The two tables of a run with a gap and of one without. */
  ghost predicate Follows(u: Table, v: Table, id: Id, code: int) {
    id in v && v[id].ec == ENOTIFY_MARK && u == v[id := Entry(code, v[id].text)]
  }

  lemma RepeatsAlike(u: Table, v: Table, id: Id, code: int, name: Bytes)
    requires Follows(u, v, id, code) && (code != ENOERROR || v[id].text != name)
    ensures Repeats(u, name) <==> Repeats(v, name)
  {
    assert forall k :: Marked(u, k) && u[k].text == name <==> Marked(v, k) && v[k].text == name;
  }

  lemma StepFollows(u: Table, v: Table, s: Step, id: Id, code: int)
    requires Follows(u, v, id, code) && s.id != id && (code != ENOERROR || !Asks(s, v[id].text))
    ensures Follows(Apply(u, s), Apply(v, s), id, code) && Apply(v, s)[id] == v[id]
  {
    if s.Enter? && s.e.ec != 0 {
      RepeatsAlike(u, v, id, code, s.e.text);
    }
    hide Repeats;
    assert Apply(u, s) == Apply(v, s)[id := Entry(code, v[id].text)];
  }

  lemma {:induction false} RunFollows(u: Table, v: Table, steps: seq<Step>, id: Id, code: int)
    requires Follows(u, v, id, code) && Foreign(u, steps, id)
    requires code != ENOERROR || forall s <- steps :: !Asks(s, v[id].text)
    ensures Follows(Run(u, steps), Run(v, steps), id, code) && Run(v, steps)[id] == v[id]
    decreases |steps|
  {
    hide Apply;
    if steps != [] {
      StepFollows(u, v, steps[0], id, code);
      RunFollows(Apply(u, steps[0]), Apply(v, steps[0]), steps[1..], id, code);
    }
  }

  /** Unless a notify call for that very name comes in between, the gap is not seen: the table ends up as if the
      completion had been one step and the other sections had come after it. */
  lemma GapMakesNoDifference(t: Table, id: Id, code: int, steps: seq<Step>)
    requires Marked(t, id) && Foreign(Shown(t, id, code), steps, id)
    requires code != ENOERROR || forall s <- steps :: !Asks(s, t[id].text)
    ensures WithGap(t, id, code, steps) == Run(AfterResponse(t, id), steps)
  {
    RunFollows(Shown(t, id, code), AfterResponse(t, id), steps, id, code);
    hide Run;
  }

  /** A retry from inside the gap gets in exactly if the mark is down there, that is if the code is 0. */
  lemma RetryGetsInIff(t: Table, id: Id, code: int, again: Id)
    requires OneMarkPerService(t) && Marked(t, id)
    ensures Insert(Shown(t, id, code), again, Entry(ENOTIFY_MARK, t[id].text)).Some? <==> code == ENOERROR
  {
    assert code != ENOERROR ==> Marked(Shown(t, id, code), id);
    assert forall k :: Marked(Shown(t, id, code), k) && k != id ==> Marked(t, k);
  }

  /** A failed notify call that takes its own mark down in the gap has it put up again: its withdrawal then leaves
      the entry, without a name, where a completion in one step would have let it be taken out. */
  lemma WithdrawalUndone(t: Table, id: Id, code: int)
    requires Marked(t, id)
    ensures Removed(WithGap(t, id, code, [Unmark(id)]), id) == t[id := Entry(ENOTIFY_MARK, [])]
    ensures Removed(Apply(AfterResponse(t, id), Unmark(id)), id) == t - {id}
  {
    assert [Unmark(id)][1..] == [];
    assert Run(Shown(t, id, code), [Unmark(id)]) == Run(Apply(Shown(t, id, code), Unmark(id)), []);
  }
}
