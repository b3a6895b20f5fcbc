/** Binding controllers to the forms on the page: the scan run on `DOMContentLoaded` and
    the `MutationObserver` callback that binds forms inserted later. A form is identified
    by its element; `data-initialized` is the marker the callback sets and checks; every
    `new NotifyMeForm(form)` adds one controller for that element. */
module Binding {

  /** The identity of a `.notify-me-form` element. */
  type FormId = nat

  /** A `NodeList` never holds the same element twice. */
  predicate Distinct(s: seq<FormId>) {
    forall i, j :: 0 <= i < j < |s| ==> s[i] != s[j]
  }

  function Elements(s: seq<FormId>): set<FormId> {
    set f | f in s
  }

  /** `querySelectorAll('.notify-me-form:not([data-initialized])')`: the forms without the
      marker, in document order. */
  function Unmarked(forms: seq<FormId>, marked: set<FormId>): (r: seq<FormId>)
    ensures forall f :: f in r <==> f in forms && f !in marked
    ensures Distinct(forms) ==> Distinct(r)
  {
    if forms == [] then []
    else
      var rest := Unmarked(forms[1..], marked);
      assert forall f :: f in rest ==> f in forms[1..];
      if forms[0] in marked then rest else [forms[0]] + rest
  }

  /** In a list without repeats every element occurs once. */
  lemma {:induction false} CountDistinct(s: seq<FormId>, f: FormId)
    requires Distinct(s)
    ensures multiset(s)[f] == if f in s then 1 else 0
  {
    if s != [] {
      assert s == [s[0]] + s[1..];
      assert multiset(s) == multiset{s[0]} + multiset(s[1..]);
      assert s[0] !in s[1..];
      CountDistinct(s[1..], f);
    }
  }

  /** Each marked form has exactly one controller and every other form none. */
  ghost predicate BoundOnce(marked: set<FormId>, controllers: multiset<FormId>) {
    forall f :: controllers[f] == if f in marked then 1 else 0
  }

  /** One observer batch marks the unmarked forms on the page and binds one controller to
      each, so "one controller exactly for the marked forms" survives it. */
  lemma BatchKeepsBoundOnce(forms: seq<FormId>, marked: set<FormId>, controllers: multiset<FormId>)
    requires Distinct(forms) && BoundOnce(marked, controllers)
    ensures BoundOnce(marked + Elements(forms), controllers + multiset(Unmarked(forms, marked)))
  {
    var bound := Unmarked(forms, marked);
    forall f ensures (controllers + multiset(bound))[f] == if f in marked + Elements(forms) then 1 else 0 {
      CountDistinct(bound, f);
    }
  }

  /** A second batch right after the first finds nothing to bind. */
  lemma BatchIdempotent(forms: seq<FormId>, marked: set<FormId>)
    ensures Unmarked(forms, marked + Elements(forms)) == []
  {
    AllMarked(forms, marked + Elements(forms));
  }

  lemma {:induction false} AllMarked(forms: seq<FormId>, marked: set<FormId>)
    requires forall f :: f in forms ==> f in marked
    ensures Unmarked(forms, marked) == []
  {
    if forms != [] {
      assert forms[0] in forms;
      assert forall f :: f in forms[1..] ==> f in forms;
      AllMarked(forms[1..], marked);
    }
  }

  /** The code as written: the `DOMContentLoaded` scan binds every form without marking it,
      so the first observer batch after it binds the same forms again. */
  lemma ScanThenBatchBindsTwice(forms: seq<FormId>, marked: set<FormId>, controllers: multiset<FormId>, f: FormId)
    requires Distinct(forms) && f in forms && f !in marked
    ensures (controllers + multiset(forms) + multiset(Unmarked(forms, marked)))[f] == controllers[f] + 2
  {
    CountDistinct(forms, f);
    CountDistinct(Unmarked(forms, marked), f);
  }

  /** The smallest page that shows it: one form, present at page-ready time, is left with
      two controllers once any later mutation batch runs. */
  lemma OneFormBoundTwice()
    ensures var scanned := multiset([0 as FormId]);
      (scanned + multiset(Unmarked([0], {})))[0] == 2 && !BoundOnce({0}, scanned + multiset(Unmarked([0], {})))
  {
    ScanThenBatchBindsTwice([0], {}, multiset{}, 0);
    assert multiset{} + multiset([0 as FormId]) == multiset([0 as FormId]);
  }

  /** The scan as intended, marker-guarded like the observer: scanning and then running
      any number of batches leaves every form on the page with exactly one controller. */
  lemma CorrectedScanBindsOnce(forms: seq<FormId>)
    requires Distinct(forms)
    ensures var scanned := multiset(Unmarked(forms, {}));
      var marked := Elements(forms);
      BoundOnce(marked, scanned) &&
      BoundOnce(marked, scanned + multiset(Unmarked(forms, marked)))
  {
    BatchKeepsBoundOnce(forms, {}, multiset{});
    assert {} + Elements(forms) == Elements(forms);
    assert multiset{} + multiset(Unmarked(forms, {})) == multiset(Unmarked(forms, {}));
    BatchIdempotent(forms, Elements(forms));
    assert Elements(forms) + Elements(forms) == Elements(forms);
  }

  /** The document: its notify-me forms in document order, the markers, and the
      controllers constructed so far (one multiset entry per `new NotifyMeForm`). */
  class Page {
    var forms: seq<FormId>
    var initialized: set<FormId>
    var controllers: multiset<FormId>

    ghost predicate Valid()
      reads this
    {
      Distinct(forms)
    }

    /** The page as parsed, before any script has bound anything. */
    constructor (present: seq<FormId>)
      requires Distinct(present)
      ensures Valid() && forms == present && initialized == {} && controllers == multiset{}
      ensures BoundOnce(initialized, controllers)
    {
      forms := present;
      initialized := {};
      controllers := multiset{};
    }

    /** A form element is inserted (a quick view, a variant change). A re-inserted element
        keeps its marker. */
    method Insert(f: FormId)
      requires Valid() && f !in forms
      modifies this
      ensures Valid() && forms == old(forms) + [f]
      ensures initialized == old(initialized) && controllers == old(controllers)
    {
      forms := forms + [f];
    }

    /** The form at position `i` leaves the document. Its controller is not torn down. */
    method Remove(i: nat)
      requires Valid() && i < |forms|
      modifies this
      ensures Valid() && forms == old(forms[..i] + forms[i + 1..])
      ensures initialized == old(initialized) && controllers == old(controllers)
    {
      forms := forms[..i] + forms[i + 1..];
      assert forall k :: 0 <= k < |forms| ==> forms[k] == old(forms)[if k < i then k else k + 1];
    }

    /** The `DOMContentLoaded` handler as written: a controller for every form on the page,
        and no marker set. */
    method ContentLoaded()
      requires Valid()
      modifies this
      ensures Valid() && forms == old(forms) && initialized == old(initialized)
      ensures controllers == old(controllers) + multiset(old(forms))
    {
      var nodes := forms;
      var i := 0;
      while i < |nodes|
        invariant 0 <= i <= |nodes|
        invariant forms == nodes && initialized == old(initialized)
        invariant controllers == old(controllers) + multiset(nodes[..i])
      {
        controllers := controllers + multiset{nodes[i]};
        assert nodes[..i + 1] == nodes[..i] + [nodes[i]];
        i := i + 1;
      }
      assert nodes[..i] == nodes;
    }

    /** The observer callback for one batch of mutations: mark every unmarked form, then
        construct its controller. */
    method MutationBatch()
      requires Valid()
      modifies this
      ensures Valid() && forms == old(forms)
      ensures initialized == old(initialized) + Elements(old(forms))
      ensures controllers == old(controllers) + multiset(Unmarked(old(forms), old(initialized)))
      ensures old(BoundOnce(initialized, controllers)) ==> BoundOnce(initialized, controllers)
    {
      var nodes := Unmarked(forms, initialized);
      var i := 0;
      while i < |nodes|
        invariant 0 <= i <= |nodes|
        invariant forms == old(forms)
        invariant initialized == old(initialized) + Elements(nodes[..i])
        invariant controllers == old(controllers) + multiset(nodes[..i])
      {
        var form := nodes[i];
        initialized := initialized + {form};
        controllers := controllers + multiset{form};
        assert nodes[..i + 1] == nodes[..i] + [form];
        i := i + 1;
      }
      assert nodes[..i] == nodes;
      if old(BoundOnce(initialized, controllers)) {
        BatchKeepsBoundOnce(forms, old(initialized), old(controllers));
      }
    }

    /** The `DOMContentLoaded` handler as intended: the same marker-guarded binding as the
        observer, so a form is never bound by both. */
    method ContentLoadedCorrected()
      requires Valid()
      modifies this
      ensures Valid() && forms == old(forms)
      ensures initialized == old(initialized) + Elements(old(forms))
      ensures controllers == old(controllers) + multiset(Unmarked(old(forms), old(initialized)))
      ensures old(BoundOnce(initialized, controllers)) ==> BoundOnce(initialized, controllers)
    {
      MutationBatch();
    }
  }
}
