/** The notification slot of the page (`showNotification`).

    Each call removes every notification element from the document, creates
    one new element, appends it, and starts a chain of timers on it: slide in
    after 100 ms, slide out after 5000 ms, and 300 ms after sliding out detach
    it from the document if it is still attached.

    The document is modelled as a value `Doc`: every notification element ever
    created (they outlive their removal, because pending timers still hold
    them), the ones currently attached to the body, an explicit timer queue
    and a clock. `Shown` and `Fired` are the two transitions; `Consistent` is
    the invariant both keep; class `Page` performs them in place. */
module Notifications {

  /** The default of the `type` parameter. */
  const DefaultKind: string := "info"

  /** Horizontal offsets of `transform: translateX(...)`, in pixels. */
  const HiddenOffset: int := 400
  const ShownOffset: int := 0

  /** Delays of the timer chain, in milliseconds. */
  const SlideInDelay: nat := 100
  const DisplayTime: nat := 5000
  const ExitTime: nat := 300

  /** Icon class chosen by the notification type. */
  function Icon(kind: string): string {
    if kind == "success" then "fa-check-circle"
    else if kind == "error" then "fa-exclamation-circle"
    else "fa-info-circle"
  }

  /** Background colour chosen by the notification type. */
  function Background(kind: string): string {
    if kind == "success" then "#10b981"
    else if kind == "error" then "#ef4444"
    else "#3b82f6"
  }

  function ClassName(kind: string): string {
    "notification notification-" + kind
  }

  /** The markup assigned to `innerHTML` up to the message. */
  function MarkupHead(kind: string): string {
    "\n        <div class=\"notification-content\">\n            <i class=\"fas " + Icon(kind)
      + "\"></i>\n            <span>"
  }

  const MarkupTail: string := "</span>\n        </div>\n    "

  /** The markup assigned to `innerHTML`: the message is interpolated as it
      is, without escaping, so markup in it is parsed as markup. */
  function Markup(message: string, kind: string): string {
    MarkupHead(kind) + message + MarkupTail
  }

  /** A notification element, created by `showNotification(message, kind)`
      at clock reading `createdAt`. Its class list, markup and background
      colour are fixed by the message and the type; `offset` is the
      horizontal offset of its `transform`, the one property the timers
      change. */
  datatype Element = Element(message: string, kind: string, offset: int, createdAt: nat)
  {
    function ClassList(): string { ClassName(kind) }
    function InnerHtml(): string { Markup(message, kind) }
    function BackgroundColour(): string { Background(kind) }
  }

  /** A new element starts off screen, `HiddenOffset` pixels to the right. */
  function NewElement(message: string, kind: string, now: nat): Element {
    Element(message, kind, HiddenOffset, now)
  }

  /** The three deferred callbacks of one notification. */
  datatype Action = SlideIn | SlideOut | Detach

  /** A pending timer: when it is due, which element it acts on, and what it does. */
  datatype Timer = Timer(due: nat, target: nat, action: Action)

  /** Time from the creation of an element to the moment its timer of the
      given kind is due. */
  function Lag(a: Action): nat {
    match a
    case SlideIn => SlideInDelay
    case SlideOut => DisplayTime
    case Detach => DisplayTime + ExitTime
  }

  /** The document as far as notifications go: the clock, every element ever
      created (numbered in creation order), the ones attached to the body in
      document order, the pending timers, and the number created so far. */
  datatype Doc = Doc(
    clock: nat,
    elements: map<nat, Element>,
    attached: seq<nat>,
    queue: seq<Timer>,
    created: nat)

  const EmptyDoc: Doc := Doc(0, map[], [], [], 0)

  /** Timers fire in order of their due time, and in order of scheduling
      among timers due at the same time. */
  predicate Sorted(q: seq<Timer>) {
    forall i, j :: 0 <= i <= j < |q| ==> q[i].due <= q[j].due
  }

  /** No timer of `q` is due before `b`. */
  predicate DueFrom(q: seq<Timer>, b: nat) {
    forall j :: 0 <= j < |q| ==> b <= q[j].due
  }

  /** The queue after `setTimeout` registers `t`: it goes behind every
      timer due no later than it. */
  function Scheduled(q: seq<Timer>, t: Timer): seq<Timer> {
    if q == [] || q[0].due > t.due then [t] + q else [q[0]] + Scheduled(q[1..], t)
  }

  /** `s` without the occurrences of `id`. */
  function Without(s: seq<nat>, id: nat): (r: seq<nat>)
    ensures |r| <= |s|
    ensures forall x :: x in r <==> x in s && x != id
  {
    if s == [] then []
    else if s[0] == id then Without(s[1..], id)
    else [s[0]] + Without(s[1..], id)
  }

  /** The document once the new element `e` has replaced every attached
      notification and its slide-in and slide-out timers are registered. */
  function Appended(d: Doc, e: Element): Doc {
    var id := d.created;
    var slideIn := Timer(d.clock + SlideInDelay, id, SlideIn);
    var slideOut := Timer(d.clock + DisplayTime, id, SlideOut);
    Doc(d.clock, d.elements[id := e], [id], Scheduled(Scheduled(d.queue, slideIn), slideOut), d.created + 1)
  }

  /** `showNotification(message, kind)` at the current time. */
  function Shown(d: Doc, message: string, kind: string): Doc {
    Appended(d, NewElement(message, kind, d.clock))
  }

  /** The first pending timer fires: the clock moves to its due time and its
      callback acts on its own element. Sliding out schedules the detach; the
      detach removes the element only while it is still attached. */
  function Fired(d: Doc): Doc
    requires d.queue != [] && d.queue[0].target in d.elements
  {
    var t := d.queue[0];
    var e := d.elements[t.target];
    var next := d.(clock := t.due, queue := d.queue[1..]);
    match t.action
    case SlideIn =>
      next.(elements := d.elements[t.target := e.(offset := ShownOffset)])
    case SlideOut =>
      next.(elements := d.elements[t.target := e.(offset := HiddenOffset)],
            queue := Scheduled(d.queue[1..], Timer(t.due + ExitTime, t.target, Detach)))
    case Detach =>
      if t.target in d.attached then next.(attached := Without(d.attached, t.target)) else next
  }

  /** The timer acts on an element of `elements`, is due exactly the lag of
      its kind after that element was created, and is not overdue at `clock`. */
  ghost predicate OwnedBy(t: Timer, elements: map<nat, Element>, clock: nat) {
    && t.target in elements
    && t.due == elements[t.target].createdAt + Lag(t.action)
    && clock <= t.due
  }

  /** Two pending timers share an element only if exactly one of them is
      its slide-in: an element never has two slide-ins, nor two end-of-life
      timers (slide-out or detach), pending at once. */
  predicate Compatible(x: Timer, y: Timer) {
    x.target != y.target || (x.action == SlideIn) != (y.action == SlideIn)
  }

  /** The invariant of the timer queue. */
  ghost predicate Pending(q: seq<Timer>, elements: map<nat, Element>, clock: nat) {
    && Sorted(q)
    && (forall i | 0 <= i < |q| :: OwnedBy(q[i], elements, clock))
    && (forall i, j | 0 <= i < j < |q| :: Compatible(q[i], q[j]))
  }

  /** The three timers of element `id`, created at `createdAt`. */
  function SlideInOf(id: nat, createdAt: nat): Timer { Timer(createdAt + SlideInDelay, id, SlideIn) }
  function SlideOutOf(id: nat, createdAt: nat): Timer { Timer(createdAt + DisplayTime, id, SlideOut) }
  function DetachOf(id: nat, createdAt: nat): Timer { Timer(createdAt + DisplayTime + ExitTime, id, Detach) }

  /** The timer that ends the life of element `id`, created at `createdAt`,
      is still pending: its slide-out, or else its detach. */
  predicate EndPending(q: seq<Timer>, id: nat, createdAt: nat) {
    SlideOutOf(id, createdAt) in q || DetachOf(id, createdAt) in q
  }

  /** The invariant of the document: at most one notification is attached,
      elements are numbered `0 .. created - 1` and none was created in the
      future, the timer queue keeps its invariant, and the attached element
      still has the timer that ends its life pending. */
  ghost predicate Consistent(d: Doc) {
    && |d.attached| <= 1
    && (forall id: nat :: id in d.elements <==> id < d.created)
    && (forall id | id in d.elements :: d.elements[id].createdAt <= d.clock)
    && (forall id | id in d.attached :: id in d.elements && EndPending(d.queue, id, d.elements[id].createdAt))
    && Pending(d.queue, d.elements, d.clock)
  }

  /** Every element of `els` is in `els'` with the same creation time. */
  ghost predicate SameBirths(els: map<nat, Element>, els': map<nat, Element>) {
    forall id | id in els :: id in els' && els'[id].createdAt == els[id].createdAt
  }

  /** Scheduling adds exactly `t`. */
  lemma {:induction false} ScheduledMultiset(q: seq<Timer>, t: Timer)
    ensures multiset(Scheduled(q, t)) == multiset(q) + multiset{t}
  {
    if q != [] && q[0].due <= t.due {
      ScheduledMultiset(q[1..], t);
      assert q == [q[0]] + q[1..];
    }
  }

  lemma ScheduledMembers(q: seq<Timer>, t: Timer)
    ensures forall x :: x in Scheduled(q, t) <==> x == t || x in q
  {
    ScheduledMultiset(q, t);
    forall x ensures x in Scheduled(q, t) <==> x == t || x in q {
      assert x in Scheduled(q, t) <==> x in multiset(Scheduled(q, t));
      assert x in q <==> x in multiset(q);
    }
  }

  lemma {:induction false} ScheduledDueFrom(q: seq<Timer>, t: Timer, b: nat)
    requires DueFrom(q, b) && b <= t.due
    ensures DueFrom(Scheduled(q, t), b)
  {
    if q != [] && q[0].due <= t.due {
      ScheduledDueFrom(q[1..], t, b);
      var r := Scheduled(q[1..], t);
      assert forall j :: 0 < j < |r| + 1 ==> ([q[0]] + r)[j] == r[j - 1];
    }
  }

  lemma SortedCons(x: Timer, r: seq<Timer>)
    requires Sorted(r) && DueFrom(r, x.due)
    ensures Sorted([x] + r)
  {
    var s := [x] + r;
    forall i, j | 0 <= i <= j < |s| ensures s[i].due <= s[j].due {
      if 0 < i {
        assert s[i] == r[i - 1] && s[j] == r[j - 1];
      } else if 0 < j {
        assert s[j] == r[j - 1];
      }
    }
  }

  /** Inserting `t` at position `k`, behind exactly the timers due no later
      than it, is scheduling it. */
  lemma {:induction false} ScheduledAt(q: seq<Timer>, t: Timer, k: nat)
    requires k <= |q|
    requires forall j :: 0 <= j < k ==> q[j].due <= t.due
    requires k < |q| ==> q[k].due > t.due
    ensures Scheduled(q, t) == q[..k] + [t] + q[k..]
  {
    if k == 0 {
    } else {
      ScheduledAt(q[1..], t, k - 1);
      assert q[..k] == [q[0]] + q[1..][..k - 1];
      assert q[k..] == q[1..][k - 1..];
    }
  }

  /** In a sorted queue the first timer is due no later than any other. */
  lemma HeadFirst(q: seq<Timer>, t: Timer)
    requires Sorted(q) && t in q
    ensures q[0].due <= t.due
  {
    var j :| 0 <= j < |q| && q[j] == t;
  }

  /** Once the first timer is gone, the rest of the queue keeps its
      invariant at any time up to the first one's due time. */
  lemma Tail(q: seq<Timer>, els: map<nat, Element>, clock: nat, b: nat)
    requires Pending(q, els, clock) && q != [] && b <= q[0].due
    ensures Pending(q[1..], els, b)
  {
    var r := q[1..];
    forall i, j | 0 <= i <= j < |r| ensures r[i].due <= r[j].due {
      assert r[i] == q[i + 1] && r[j] == q[j + 1];
    }
    forall i | 0 <= i < |r| ensures OwnedBy(r[i], els, b) {
      assert r[i] == q[i + 1] && q[0].due <= q[i + 1].due;
    }
    forall i, j | 0 <= i < j < |r| ensures Compatible(r[i], r[j]) {
      assert r[i] == q[i + 1] && r[j] == q[j + 1];
    }
  }

  /** The queue invariant survives changes to the elements that keep their
      birth times, and a clock that no timer is overdue at. */
  lemma Rebased(q: seq<Timer>, els: map<nat, Element>, clock: nat, els': map<nat, Element>, clock': nat)
    requires Pending(q, els, clock) && SameBirths(els, els') && DueFrom(q, clock')
    ensures Pending(q, els', clock')
  {
    forall i | 0 <= i < |q| ensures OwnedBy(q[i], els', clock') {
      assert OwnedBy(q[i], els, clock);
    }
  }

  /** Scheduling an owned timer that is compatible with every pending one
      keeps the queue invariant. */
  lemma {:induction false} ScheduledPending(q: seq<Timer>, t: Timer, els: map<nat, Element>, clock: nat)
    requires Pending(q, els, clock) && OwnedBy(t, els, clock)
    requires forall i | 0 <= i < |q| :: Compatible(q[i], t)
    ensures Pending(Scheduled(q, t), els, clock)
  {
    if q == [] || q[0].due > t.due {
      var s := [t] + q;
      SortedCons(t, q);
      forall i | 0 <= i < |s| ensures OwnedBy(s[i], els, clock) {
        if 0 < i {
          assert s[i] == q[i - 1];
        }
      }
      forall i, j | 0 <= i < j < |s| ensures Compatible(s[i], s[j]) {
        if 0 < i {
          assert s[i] == q[i - 1] && s[j] == q[j - 1];
        } else {
          assert s[j] == q[j - 1];
        }
      }
    } else {
      var x := q[0];
      var rest := q[1..];
      Tail(q, els, clock, clock);
      forall i | 0 <= i < |rest| ensures Compatible(rest[i], t) {
        assert rest[i] == q[i + 1];
      }
      ScheduledPending(rest, t, els, clock);
      var r := Scheduled(rest, t);
      assert DueFrom(rest, x.due) by {
        forall j | 0 <= j < |rest| ensures x.due <= rest[j].due {
          assert rest[j] == q[j + 1];
        }
      }
      ScheduledDueFrom(rest, t, x.due);
      SortedCons(x, r);
      ScheduledMembers(rest, t);
      var s := [x] + r;
      forall i | 0 <= i < |s| ensures OwnedBy(s[i], els, clock) {
        if 0 < i {
          assert s[i] == r[i - 1];
        }
      }
      forall i, j | 0 <= i < j < |s| ensures Compatible(s[i], s[j]) {
        if 0 < i {
          assert s[i] == r[i - 1] && s[j] == r[j - 1];
        } else {
          assert s[j] == r[j - 1] && r[j - 1] in r;
          if r[j - 1] != t {
            var k :| 0 <= k < |rest| && rest[k] == r[j - 1];
            assert rest[k] == q[k + 1];
          }
        }
      }
    }
  }

  /** The queue of the new element is consistent. */
  lemma AppendedPending(d: Doc, e: Element)
    requires Pending(d.queue, d.elements, d.clock) && d.created !in d.elements && e.createdAt == d.clock
    ensures Pending(Appended(d, e).queue, d.elements[d.created := e], d.clock)
  {
    var id := d.created;
    var els := d.elements[id := e];
    var slideIn := Timer(d.clock + SlideInDelay, id, SlideIn);
    var slideOut := Timer(d.clock + DisplayTime, id, SlideOut);
    var q1 := Scheduled(d.queue, slideIn);
    Rebased(d.queue, d.elements, d.clock, els, d.clock);
    ScheduledPending(d.queue, slideIn, els, d.clock);
    ScheduledMembers(d.queue, slideIn);
    forall i | 0 <= i < |q1| ensures Compatible(q1[i], slideOut) {
      assert q1[i] in q1;
      if q1[i] != slideIn {
        var k :| 0 <= k < |d.queue| && d.queue[k] == q1[i];
        assert OwnedBy(d.queue[k], d.elements, d.clock);
      }
    }
    ScheduledPending(q1, slideOut, els, d.clock);
  }

  lemma AppendedConsistent(d: Doc, e: Element)
    requires Consistent(d) && e.createdAt == d.clock
    ensures Consistent(Appended(d, e))
  {
    AppendedPending(d, e);
    var id := d.created;
    ScheduledMembers(Scheduled(d.queue, Timer(d.clock + SlideInDelay, id, SlideIn)), Timer(d.clock + DisplayTime, id, SlideOut));
  }

  /** Showing a notification keeps the document consistent. */
  lemma ShownConsistent(d: Doc, message: string, kind: string)
    requires Consistent(d)
    ensures Consistent(Shown(d, message, kind))
  {
    AppendedConsistent(d, NewElement(message, kind, d.clock));
  }

  /** What firing the first timer always keeps: the birth times of the
      elements, and the invariant of the rest of the queue. */
  lemma FiredBasics(d: Doc)
    requires Consistent(d) && d.queue != []
    ensures d.queue[0].target in d.elements && d.clock <= d.queue[0].due
    ensures SameBirths(d.elements, Fired(d).elements) && Fired(d).clock == d.queue[0].due
    ensures Pending(d.queue[1..], Fired(d).elements, d.queue[0].due)
    ensures forall x | x in d.queue && x != d.queue[0] :: x in d.queue[1..]
  {
    assert OwnedBy(d.queue[0], d.elements, d.clock);
    Tail(d.queue, d.elements, d.clock, d.queue[0].due);
    Rebased(d.queue[1..], d.elements, d.queue[0].due, Fired(d).elements, d.queue[0].due);
    assert d.queue == [d.queue[0]] + d.queue[1..];
  }

  lemma FiredSlideIn(d: Doc)
    requires Consistent(d) && d.queue != [] && d.queue[0].action == SlideIn
    ensures d.queue[0].target in d.elements && Consistent(Fired(d))
  {
    FiredBasics(d);
  }

  /** Behind a slide-out nothing else of its element is pending, so the
      detach it schedules is compatible with the rest of the queue. */
  lemma DetachCompatible(q: seq<Timer>, els: map<nat, Element>, clock: nat)
    requires Pending(q, els, clock) && q != [] && q[0].action == SlideOut
    ensures forall i | 0 <= i < |q[1..]| :: Compatible(q[1..][i], Timer(q[0].due + ExitTime, q[0].target, Detach))
  {
    var rest := q[1..];
    forall i | 0 <= i < |rest| ensures Compatible(rest[i], Timer(q[0].due + ExitTime, q[0].target, Detach)) {
      assert rest[i] == q[i + 1] && Compatible(q[0], q[i + 1]);
      assert OwnedBy(q[0], els, clock) && OwnedBy(q[i + 1], els, clock);
    }
  }

  lemma FiredSlideOut(d: Doc)
    requires Consistent(d) && d.queue != [] && d.queue[0].action == SlideOut
    ensures d.queue[0].target in d.elements && Consistent(Fired(d))
  {
    FiredBasics(d);
    var t := d.queue[0];
    var detach := Timer(t.due + ExitTime, t.target, Detach);
    DetachCompatible(d.queue, d.elements, d.clock);
    var r := Fired(d);
    assert r.attached == d.attached && r.created == d.created;
    ScheduledPending(d.queue[1..], detach, r.elements, t.due);
    ScheduledMembers(d.queue[1..], detach);
    forall id | id in r.attached ensures id in r.elements && EndPending(r.queue, id, r.elements[id].createdAt) {
      assert EndPending(d.queue, id, d.elements[id].createdAt);
    }
  }

  lemma FiredDetach(d: Doc)
    requires Consistent(d) && d.queue != [] && d.queue[0].action == Detach
    ensures d.queue[0].target in d.elements && Consistent(Fired(d))
  {
    FiredBasics(d);
  }

  /** Firing a timer keeps the document consistent and attaches nothing. */
  lemma FiredConsistent(d: Doc)
    requires Consistent(d) && d.queue != []
    ensures d.queue[0].target in d.elements
    ensures Consistent(Fired(d)) && Fired(d).clock == d.queue[0].due
    ensures SameBirths(d.elements, Fired(d).elements)
    ensures forall id | id in Fired(d).attached :: id in d.attached
  {
    FiredBasics(d);
    match d.queue[0].action
    case SlideIn => FiredSlideIn(d);
    case SlideOut => FiredSlideOut(d);
    case Detach => FiredDetach(d);
  }

  /** A measure that every firing decreases: a slide-out counts twice,
      because firing it schedules a detach. */
  function Weight(q: seq<Timer>): nat {
    if q == [] then 0 else (if q[0].action == SlideOut then 2 else 1) + Weight(q[1..])
  }

  lemma {:induction false} ScheduledWeight(q: seq<Timer>, t: Timer)
    ensures Weight(Scheduled(q, t)) == Weight(q) + Weight([t])
  {
    if q != [] && q[0].due <= t.due {
      ScheduledWeight(q[1..], t);
    }
  }

  lemma FiredWeight(d: Doc)
    requires d.queue != [] && d.queue[0].target in d.elements
    ensures Weight(Fired(d).queue) < Weight(d.queue)
  {
    var t := d.queue[0];
    if t.action == SlideOut {
      ScheduledWeight(d.queue[1..], Timer(t.due + ExitTime, t.target, Detach));
    }
  }

  /** The document after every timer due by `now` has fired, in order, and
      the clock has reached `now`: nothing due by `now` is left pending,
      no element was attached on the way, and birth times are kept. */
  function RunUntil(d: Doc, now: nat): (r: Doc)
    requires Consistent(d) && d.clock <= now
    ensures Consistent(r) && r.clock == now
    ensures r.queue == [] || now < r.queue[0].due
    ensures SameBirths(d.elements, r.elements)
    ensures forall id | id in r.attached :: id in d.attached
    decreases Weight(d.queue)
  {
    if d.queue != [] && d.queue[0].due <= now then
      FiredConsistent(d);
      FiredWeight(d);
      RunUntil(Fired(d), now)
    else
      Rebased(d.queue, d.elements, d.clock, d.elements, now);
      d.(clock := now)
  }

  /** A success gets the check icon on green, an error the exclamation icon
      on red, and the three looks are pairwise distinct. */
  lemma KindStyles()
    ensures Icon("success") == "fa-check-circle" && Background("success") == "#10b981"
    ensures Icon("error") == "fa-exclamation-circle" && Background("error") == "#ef4444"
    ensures Icon(DefaultKind) == "fa-info-circle" && Background(DefaultKind) == "#3b82f6"
    ensures Icon("success") != Icon("error") && Icon("error") != Icon(DefaultKind) && Icon("success") != Icon(DefaultKind)
    ensures Background("success") != Background("error") && Background("error") != Background(DefaultKind)
      && Background("success") != Background(DefaultKind)
  {
  }

  /** An unknown type is styled like `info`, while the class name keeps the
      type it was given. */
  lemma UnknownKindLooksInfo(kind: string)
    requires kind != "success" && kind != "error"
    ensures Icon(kind) == Icon(DefaultKind) && Background(kind) == Background(DefaultKind)
    ensures ClassName(kind) == ClassName(DefaultKind) <==> kind == DefaultKind
  {
    var prefix := "notification notification-";
    assert ClassName(kind)[|prefix|..] == kind;
    assert ClassName(DefaultKind)[|prefix|..] == DefaultKind;
  }

  /** The message sits verbatim, unescaped, between the `<span>` and the
      `</span>` of the markup. */
  lemma MarkupCarriesMessage(message: string, kind: string)
    ensures var m := Markup(message, kind);
      var h := |MarkupHead(kind)|;
      && |m| == h + |message| + |MarkupTail|
      && m[..h] == MarkupHead(kind)
      && m[h..h + |message|] == message
      && m[h + |message|..] == MarkupTail
  {
  }

  /** After `showNotification` exactly the new element is attached; it has
      the class, markup and colour of its type and starts off screen, and
      every earlier element is kept as it was. */
  lemma ShownReplaces(d: Doc, message: string, kind: string)
    requires d.created !in d.elements
    ensures Shown(d, message, kind).attached == [d.created]
    ensures Shown(d, message, kind).elements[d.created] == Element(message, kind, HiddenOffset, d.clock)
    ensures forall id | id in d.elements ::
      id in Shown(d, message, kind).elements && Shown(d, message, kind).elements[id] == d.elements[id]
  {
  }

  /** The element a call attaches has the class list, the markup around the
      message and the colour of its type. */
  lemma ShownLooks(d: Doc, message: string, kind: string)
    ensures d.created in Shown(d, message, kind).elements
    ensures var e := Shown(d, message, kind).elements[d.created];
      && e.ClassList() == "notification notification-" + kind
      && e.InnerHtml() == MarkupHead(kind) + message + MarkupTail
      && e.BackgroundColour() == Background(kind)
  {
  }

  /** `showNotification` cancels no timer: the queue gains exactly the new
      element's slide-in and slide-out. */
  lemma ShownQueue(d: Doc, e: Element)
    ensures multiset(Appended(d, e).queue)
         == multiset(d.queue) + multiset{Timer(d.clock + SlideInDelay, d.created, SlideIn)}
              + multiset{Timer(d.clock + DisplayTime, d.created, SlideOut)}
  {
    var slideIn := Timer(d.clock + SlideInDelay, d.created, SlideIn);
    var q1 := Scheduled(d.queue, slideIn);
    ScheduledMultiset(d.queue, slideIn);
    var slideOut := Timer(d.clock + DisplayTime, d.created, SlideOut);
    ScheduledMultiset(q1, slideOut);
    assert Appended(d, e).queue == Scheduled(q1, slideOut);
  }

  /** A timer acts only on its own element: the other elements, and
      whether they are attached, stay as they are. */
  lemma OthersUntouched(d: Doc, id: nat)
    requires Consistent(d) && d.queue != [] && id in d.elements && d.queue[0].target != id
    ensures d.queue[0].target in d.elements
    ensures id in Fired(d).elements && Fired(d).elements[id] == d.elements[id]
    ensures id in Fired(d).attached <==> id in d.attached
  {
    FiredBasics(d);
  }

  /** An attached element leaves the document exactly when the first timer
      is its own detach, due 5300 ms after the element was created. */
  lemma LeavesOnlyByOwnDetach(d: Doc, id: nat)
    requires Consistent(d) && d.queue != [] && id in d.attached
    ensures d.queue[0].target in d.elements && id in d.elements
    ensures id !in Fired(d).attached
        <==> d.queue[0] == Timer(d.elements[id].createdAt + DisplayTime + ExitTime, id, Detach)
  {
    FiredBasics(d);
    assert OwnedBy(d.queue[0], d.elements, d.clock);
  }

  /** Once the detach of an element has fired, no timer of that element is
      left: nothing acts on it afterwards. */
  lemma NothingAfterDetach(d: Doc)
    requires Consistent(d) && d.queue != [] && d.queue[0].action == Detach
    ensures d.queue[0].target in d.elements
    ensures forall t | t in Fired(d).queue :: t.target != d.queue[0].target
  {
    FiredBasics(d);
    var q := d.queue;
    var rest := q[1..];
    forall t | t in rest ensures t.target != q[0].target {
      var k :| 0 <= k < |rest| && rest[k] == t;
      assert rest[k] == q[k + 1] && Compatible(q[0], q[k + 1]);
      assert OwnedBy(q[0], d.elements, d.clock) && OwnedBy(q[k + 1], d.elements, d.clock);
    }
  }

  /** An attached element is still attached at any time before its
      creation time plus 5300 ms, whatever timers fire in between. */
  lemma {:induction false} StaysUntil(d: Doc, now: nat, id: nat)
    requires Consistent(d) && d.clock <= now && id in d.attached
    requires now < d.elements[id].createdAt + DisplayTime + ExitTime
    ensures id in RunUntil(d, now).attached
    decreases Weight(d.queue)
  {
    if d.queue != [] && d.queue[0].due <= now {
      FiredConsistent(d);
      FiredWeight(d);
      LeavesOnlyByOwnDetach(d, id);
      StaysUntil(Fired(d), now, id);
    }
  }

  /** No element is attached at its creation time plus 5300 ms or later. */
  lemma GoneBy(d: Doc, now: nat, id: nat)
    requires Consistent(d) && d.clock <= now && id in d.elements
    requires d.elements[id].createdAt + DisplayTime + ExitTime <= now
    ensures id !in RunUntil(d, now).attached
  {
    var r := RunUntil(d, now);
    forall x | x in r.queue ensures now < x.due {
      HeadFirst(r.queue, x);
    }
  }

  /** A notification shown at time `c` is the only one on the page from `c`
      until just before `c + 5300`, and from then on the page shows none,
      whatever older timers are still pending. */
  lemma ShownLifetime(d: Doc, message: string, kind: string, now: nat)
    requires Consistent(d) && d.clock <= now
    ensures Consistent(Shown(d, message, kind))
    ensures RunUntil(Shown(d, message, kind), now).attached
        == if now < d.clock + DisplayTime + ExitTime then [d.created] else []
  {
    var s := Shown(d, message, kind);
    ShownConsistent(d, message, kind);
    ShownReplaces(d, message, kind);
    var r := RunUntil(s, now);
    if now < d.clock + DisplayTime + ExitTime {
      StaysUntil(s, now, d.created);
    } else {
      GoneBy(s, now, d.created);
    }
    assert |r.attached| > 0 ==> r.attached[0] in r.attached;
  }

  /** The offset the pending timers of an element call for: off screen
      while its slide-in is pending, on screen while its slide-out is, off
      screen once both have fired. */
  function ExpectedOffset(q: seq<Timer>, id: nat, createdAt: nat): int {
    if SlideInOf(id, createdAt) in q then HiddenOffset
    else if SlideOutOf(id, createdAt) in q then ShownOffset
    else HiddenOffset
  }

  /** No timer of element `id` is lost at time `clock`: each one not yet due
      is pending (the detach once the slide-out has fired), and the offset is
      the one its pending timers call for. */
  predicate OnTrack(q: seq<Timer>, clock: nat, id: nat, e: Element) {
    var c := e.createdAt;
    && (clock < c + SlideInDelay ==> SlideInOf(id, c) in q)
    && (clock < c + DisplayTime ==> SlideOutOf(id, c) in q)
    && (clock < c + DisplayTime + ExitTime && SlideOutOf(id, c) !in q ==> DetachOf(id, c) in q)
    && e.offset == ExpectedOffset(q, id, c)
  }

  /** Every element is on track. */
  ghost predicate Timeline(d: Doc) {
    forall id | id in d.elements :: OnTrack(d.queue, d.clock, id, d.elements[id])
  }

  /** The queues `q` and `q'` hold the same timers of element `id`. */
  predicate SameTimersOf(q: seq<Timer>, q': seq<Timer>, id: nat, createdAt: nat) {
    && (SlideInOf(id, createdAt) in q <==> SlideInOf(id, createdAt) in q')
    && (SlideOutOf(id, createdAt) in q <==> SlideOutOf(id, createdAt) in q')
    && (DetachOf(id, createdAt) in q <==> DetachOf(id, createdAt) in q')
  }

  /** An element none of whose timers came or went stays on track while
      time passes. */
  lemma OnTrackLater(q: seq<Timer>, q': seq<Timer>, clock: nat, clock': nat, id: nat, e: Element)
    requires OnTrack(q, clock, id, e) && clock <= clock' && SameTimersOf(q, q', id, e.createdAt)
    ensures OnTrack(q', clock', id, e)
  {
  }

  /** Showing a notification leaves the timers of every other element
      alone. */
  lemma AppendedQueueOthers(d: Doc, e: Element)
    ensures var id := d.created;
      && SlideInOf(id, d.clock) in Appended(d, e).queue
      && SlideOutOf(id, d.clock) in Appended(d, e).queue
      && forall y: Timer | y.target != id :: y in Appended(d, e).queue <==> y in d.queue
  {
    var id := d.created;
    var q1 := Scheduled(d.queue, SlideInOf(id, d.clock));
    ScheduledMembers(d.queue, SlideInOf(id, d.clock));
    ScheduledMembers(q1, SlideOutOf(id, d.clock));
    assert Appended(d, e).queue == Scheduled(q1, SlideOutOf(id, d.clock));
  }

  lemma ShownTimeline(d: Doc, message: string, kind: string)
    requires d.created !in d.elements && Timeline(d)
    ensures Timeline(Shown(d, message, kind))
  {
    var id := d.created;
    var r := Shown(d, message, kind);
    AppendedQueueOthers(d, NewElement(message, kind, d.clock));
    forall i | i in r.elements ensures OnTrack(r.queue, r.clock, i, r.elements[i]) {
      if i != id {
        OnTrackLater(d.queue, r.queue, d.clock, d.clock, i, d.elements[i]);
      }
    }
  }

  /** A firing leaves the timers of every other element alone. */
  lemma FiredQueueOthers(d: Doc)
    requires d.queue != [] && d.queue[0].target in d.elements
    ensures forall y: Timer | y.target != d.queue[0].target :: y in Fired(d).queue <==> y in d.queue
  {
    var t := d.queue[0];
    assert d.queue == [t] + d.queue[1..];
    if t.action == SlideOut {
      ScheduledMembers(d.queue[1..], Timer(t.due + ExitTime, t.target, Detach));
    }
  }

  /** The other pending timers of the first timer's element: only its
      slide-in pairs with an end-of-life timer, and none is due earlier. */
  lemma HeadAlone(q: seq<Timer>, els: map<nat, Element>, clock: nat)
    requires Pending(q, els, clock) && q != []
    ensures forall y | y in q[1..] && y.target == q[0].target ::
      (y.action == SlideIn) != (q[0].action == SlideIn) && q[0].due <= y.due
  {
    forall y | y in q[1..] && y.target == q[0].target
      ensures (y.action == SlideIn) != (q[0].action == SlideIn) && q[0].due <= y.due
    {
      var k :| 0 <= k < |q[1..]| && q[1..][k] == y;
      assert q[k + 1] == y && Compatible(q[0], q[k + 1]);
    }
  }

  /** What the cases of `FiredOwnOnTrack` start from: the first timer `q[0]`
      belongs to element `x`, whose other pending timers are as `HeadAlone`
      says. */
  predicate OwnHead(q: seq<Timer>, clock: nat, x: nat, e: Element) {
    && q != [] && q[0].target == x
    && q[0].due == e.createdAt + Lag(q[0].action) && clock <= q[0].due
    && OnTrack(q, clock, x, e)
    && forall y | y in q[1..] && y.target == x :: (y.action == SlideIn) != (q[0].action == SlideIn) && q[0].due <= y.due
  }

  lemma OwnSlideIn(q: seq<Timer>, clock: nat, x: nat, e: Element)
    requires OwnHead(q, clock, x, e) && q[0].action == SlideIn
    ensures OnTrack(q[1..], q[0].due, x, e.(offset := ShownOffset))
  {
    assert q == [q[0]] + q[1..];
  }

  lemma OwnSlideOut(q: seq<Timer>, clock: nat, x: nat, e: Element)
    requires OwnHead(q, clock, x, e) && q[0].action == SlideOut
    ensures OnTrack(Scheduled(q[1..], DetachOf(x, e.createdAt)), q[0].due, x, e.(offset := HiddenOffset))
  {
    ScheduledMembers(q[1..], DetachOf(x, e.createdAt));
  }

  lemma OwnDetach(q: seq<Timer>, clock: nat, x: nat, e: Element)
    requires OwnHead(q, clock, x, e) && q[0].action == Detach
    ensures OnTrack(q[1..], q[0].due, x, e)
  {
    assert q == [q[0]] + q[1..];
  }

  /** The first timer fires on its own element, which stays on track. */
  lemma FiredOwnOnTrack(d: Doc)
    requires Consistent(d) && Timeline(d) && d.queue != []
    ensures d.queue[0].target in d.elements
    ensures var x := d.queue[0].target; OnTrack(Fired(d).queue, Fired(d).clock, x, Fired(d).elements[x])
  {
    var q := d.queue;
    var x := q[0].target;
    assert OwnedBy(q[0], d.elements, d.clock);
    HeadAlone(q, d.elements, d.clock);
    assert OwnHead(q, d.clock, x, d.elements[x]);
    match q[0].action
    case SlideIn => OwnSlideIn(q, d.clock, x, d.elements[x]);
    case SlideOut => OwnSlideOut(q, d.clock, x, d.elements[x]);
    case Detach => OwnDetach(q, d.clock, x, d.elements[x]);
  }

  /** A firing keeps the other elements on track. */
  lemma FiredOthersOnTrack(d: Doc)
    requires Timeline(d) && d.queue != [] && d.queue[0].target in d.elements && d.clock <= d.queue[0].due
    ensures forall id | id in Fired(d).elements && id != d.queue[0].target ::
      OnTrack(Fired(d).queue, Fired(d).clock, id, Fired(d).elements[id])
  {
    FiredQueueOthers(d);
    var r := Fired(d);
    forall id | id in r.elements && id != d.queue[0].target ensures OnTrack(r.queue, r.clock, id, r.elements[id]) {
      OnTrackLater(d.queue, r.queue, d.clock, r.clock, id, d.elements[id]);
    }
  }

  /** Firing a timer keeps every element on track. */
  lemma FiredTimeline(d: Doc)
    requires Consistent(d) && Timeline(d) && d.queue != []
    ensures d.queue[0].target in d.elements && Timeline(Fired(d))
  {
    assert OwnedBy(d.queue[0], d.elements, d.clock);
    FiredOwnOnTrack(d);
    FiredOthersOnTrack(d);
  }

  /** Running the timers keeps every element on track. */
  lemma {:induction false} RunTimeline(d: Doc, now: nat)
    requires Consistent(d) && Timeline(d) && d.clock <= now
    ensures Timeline(RunUntil(d, now))
    decreases Weight(d.queue)
  {
    if d.queue != [] && d.queue[0].due <= now {
      FiredConsistent(d);
      FiredWeight(d);
      FiredTimeline(d);
      RunTimeline(Fired(d), now);
    } else {
      var r := d.(clock := now);
      forall id | id in r.elements ensures OnTrack(r.queue, now, id, r.elements[id]) {
        OnTrackLater(d.queue, d.queue, d.clock, now, id, d.elements[id]);
      }
    }
  }

  /** Once every timer due by its clock has fired, an element is off screen
      before its creation time plus 100 ms, on screen from then until its
      creation time plus 5000 ms, and off screen afterwards. */
  lemma SettledOffset(r: Doc, id: nat)
    requires Consistent(r) && Timeline(r) && id in r.elements
    requires r.queue == [] || r.clock < r.queue[0].due
    ensures var c := r.elements[id].createdAt;
      r.elements[id].offset
        == if r.clock < c + SlideInDelay then HiddenOffset
           else if r.clock < c + DisplayTime then ShownOffset
           else HiddenOffset
  {
    forall x | x in r.queue ensures r.clock < x.due {
      HeadFirst(r.queue, x);
    }
    assert OnTrack(r.queue, r.clock, id, r.elements[id]);
  }

  /** The notification shown at time `c` slides in at `c + 100` and out at
      `c + 5000`, whatever older timers fire in between. */
  lemma ShownOffsets(d: Doc, message: string, kind: string, now: nat)
    requires Consistent(d) && Timeline(d) && d.clock <= now
    ensures Consistent(Shown(d, message, kind))
    ensures d.created in RunUntil(Shown(d, message, kind), now).elements
    ensures RunUntil(Shown(d, message, kind), now).elements[d.created].offset
        == if now < d.clock + SlideInDelay then HiddenOffset
           else if now < d.clock + DisplayTime then ShownOffset
           else HiddenOffset
  {
    var s := Shown(d, message, kind);
    ShownConsistent(d, message, kind);
    ShownTimeline(d, message, kind);
    ShownReplaces(d, message, kind);
    RunTimeline(s, now);
    SettledOffset(RunUntil(s, now), d.created);
  }

  /** A non-empty sequence has a member. Stated apart so that the removal
      loop can conclude the sequence is empty without an assertion that
      only holds vacuously. */
  lemma NoMembers(s: seq<nat>)
    ensures s == [] || s[0] in s
  {
  }

  class Page {
    var clock: nat
    var elements: map<nat, Element>
    var attached: seq<nat>
    var queue: seq<Timer>
    var created: nat

    function State(): Doc
      reads this
    {
      Doc(clock, elements, attached, queue, created)
    }

    constructor ()
      ensures State() == EmptyDoc && Consistent(State())
    {
      clock, elements, attached, queue, created := 0, map[], [], [], 0;
    }

    /** `setTimeout`: registers `t` behind every timer due no later than it. */
    method Schedule(t: Timer)
      modifies this
      ensures State() == old(State()).(queue := Scheduled(old(queue), t))
    {
      var k := 0;
      while k < |queue| && queue[k].due <= t.due
        invariant 0 <= k <= |queue|
        invariant forall j :: 0 <= j < k ==> queue[j].due <= t.due
      {
        k := k + 1;
      }
      ScheduledAt(queue, t, k);
      queue := queue[..k] + [t] + queue[k..];
    }

    /** Removes every element matching `.notification`, one by one. */
    method RemoveExisting()
      modifies this
      ensures State() == old(State()).(attached := [])
    {
      var existing := attached;
      var i := 0;
      while i < |existing|
        invariant 0 <= i <= |existing|
        invariant forall x | x in attached :: x in existing[i..]
        invariant State() == old(State()).(attached := attached)
      {
        attached := Without(attached, existing[i]);
        i := i + 1;
      }
      NoMembers(attached);
    }

    /** `showNotification(message, type = 'info')`; returns the number of the
        new element. */
    method ShowNotification(message: string, kind: string := DefaultKind) returns (id: nat)
      modifies this
      ensures State() == Shown(old(State()), message, kind)
      ensures id == old(created)
    {
      RemoveExisting();
      var notification := NewElement(message, kind, clock);
      id := created;
      elements := elements[id := notification];
      created := created + 1;
      attached := attached + [id];
      assert attached == [id];
      Schedule(Timer(clock + SlideInDelay, id, SlideIn));
      Schedule(Timer(clock + DisplayTime, id, SlideOut));
    }

    /** The event loop runs the first pending timer. */
    method FireNext()
      requires queue != [] && queue[0].target in elements
      modifies this
      ensures State() == Fired(old(State()))
    {
      var t := queue[0];
      queue := queue[1..];
      clock := t.due;
      match t.action
      case SlideIn =>
        elements := elements[t.target := elements[t.target].(offset := ShownOffset)];
      case SlideOut =>
        elements := elements[t.target := elements[t.target].(offset := HiddenOffset)];
        Schedule(Timer(clock + ExitTime, t.target, Detach));
      case Detach =>
        if t.target in attached {
          attached := Without(attached, t.target);
        }
    }

    /** Time passes until `now`: every timer due by then fires, in order. */
    method AdvanceTo(now: nat)
      requires Consistent(State()) && clock <= now
      modifies this
      ensures State() == RunUntil(old(State()), now)
    {
      while queue != [] && queue[0].due <= now
        invariant Consistent(State()) && clock <= now
        invariant RunUntil(State(), now) == RunUntil(old(State()), now)
        decreases Weight(queue)
      {
        FiredConsistent(State());
        FiredWeight(State());
        FireNext();
      }
      Rebased(queue, elements, clock, elements, now);
      clock := now;
    }
  }
}
