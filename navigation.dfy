/** The navigation bar (`initNavigation` and `initActiveNavigation`).

    Three handlers keep class flags: the navbar's `scrolled` flag follows
    the scroll position; the mobile menu and its toggle button share an
    `active` flag that a toggle click flips and a link click or a click
    outside both clears; and each section that comes into view marks the
    first nav link pointing at it, and only that link, as `active`.

    The menu flags are a value `Menu` with the click semantics `AfterClick`;
    the nav-link flags are specified by `Highlight` and `AfterEntries`.
    Class `NavBar` holds the flags and updates them in place. */
module Navigation {
  import opened Wrappers

  /** The navbar is `scrolled` once the page is scrolled past this many
      pixels. */
  const ScrollThreshold: real := 50.0

  // ---------------------------------------------------------------------
  // Menu flags

  /** The `active` class of the menu and of the toggle button. */
  datatype Menu = Menu(menu: bool, toggle: bool) {
    predicate InSync() {
      menu == toggle
    }
  }

  const ClosedMenu := Menu(false, false)

  /** Where a click lands: inside the toggle button, on a nav link (the nav
      links sit inside the menu), elsewhere inside the menu, or outside
      both. */
  datatype Target = Toggle | Link | InMenu | Outside

  /** The listener on the clicked element itself: the toggle flips both
      flags, a nav link clears both. */
  function TargetListener(m: Menu, t: Target): Menu {
    match t
    case Toggle => Menu(!m.menu, !m.toggle)
    case Link => ClosedMenu
    case _ => m
  }

  /** The document's listener: a click contained in neither the toggle nor
      the menu clears both flags. */
  function DocumentListener(m: Menu, t: Target): Menu {
    if t == Outside then ClosedMenu else m
  }

  /** A click bubbles from its target to the document, so the target's
      listener runs first. */
  function AfterClick(m: Menu, t: Target): Menu {
    DocumentListener(TargetListener(m, t), t)
  }

  /** The menu and the toggle agree after every click. */
  lemma ClickKeepsSync(m: Menu, t: Target)
    requires m.InSync()
    ensures AfterClick(m, t).InSync()
  {
  }

  /** A toggle click opens a closed menu and closes an open one. */
  lemma ToggleFlips(m: Menu)
    requires m.InSync()
    ensures AfterClick(m, Toggle).InSync() && AfterClick(m, Toggle).menu == !m.menu
  {
  }

  /** Two toggle clicks restore the flags. */
  lemma ToggleTwiceRestores(m: Menu)
    ensures AfterClick(AfterClick(m, Toggle), Toggle) == m
  {
  }

  /** A link click, or a click outside both elements, closes the menu. */
  lemma ClickAwayCloses(m: Menu, t: Target)
    requires t == Link || t == Outside
    ensures AfterClick(m, t) == ClosedMenu
  {
  }

  /** A click inside the menu but not on a link changes nothing. */
  lemma ClickInsideKeeps(m: Menu)
    ensures AfterClick(m, InMenu) == m
  {
  }

  // ---------------------------------------------------------------------
  // Active nav link

  /** An entry the intersection observer reports: whether the section is
      in view and the section's `id`. */
  datatype Entry = Entry(isIntersecting: bool, id: string)

  /** The position of the first `x` in `s`: `querySelector` returns the
      first matching element in document order. */
  function FirstIndex(s: seq<string>, x: string): (r: Option<nat>)
    ensures r.Some? ==> r.value < |s| && s[r.value] == x && x !in s[..r.value]
    ensures r.None? <==> x !in s
  {
    if s == [] then None
    else if s[0] == x then Some(0)
    else
      match FirstIndex(s[1..], x)
      case None => None
      case Some(k) =>
        assert s[..k + 1] == [s[0]] + s[1..][..k];
        Some(k + 1)
  }

  /** The `href` the selector `.nav-link[href="#id"]` matches, for an `id`
      without CSS escapes, quotes or line breaks. */
  function Anchor(id: string): string {
    "#" + id
  }

  /** The nav-link flags after a section with `id` comes into view: all
      cleared, then the first link whose `href` is `#id` set. */
  function Highlight(hrefs: seq<string>, id: string): (h: seq<bool>)
    ensures |h| == |hrefs|
  {
    seq(|hrefs|, i requires 0 <= i < |hrefs| => FirstIndex(hrefs, Anchor(id)) == Some(i))
  }

  /** At most one flag is set. */
  predicate AtMostOne(flags: seq<bool>) {
    forall i, j | 0 <= i < j < |flags| :: !(flags[i] && flags[j])
  }

  /** After a section comes into view at most one link is active; one is
      exactly when some link points at the section, and it is the first
      such link. */
  lemma HighlightOneHot(hrefs: seq<string>, id: string)
    ensures var h := Highlight(hrefs, id);
      && AtMostOne(h)
      && (true in h <==> Anchor(id) in hrefs)
      && forall i | 0 <= i < |h| && h[i] :: hrefs[i] == Anchor(id) && Anchor(id) !in hrefs[..i]
  {
    var h := Highlight(hrefs, id);
    if Anchor(id) in hrefs {
      var k := FirstIndex(hrefs, Anchor(id)).value;
      assert h[k];
    } else {
      assert FirstIndex(hrefs, Anchor(id)) == None;
      forall i | 0 <= i < |h| ensures !h[i] {
      }
    }
  }

  /** One observer entry: only an entry in view changes the flags. */
  function AfterEntry(hrefs: seq<string>, flags: seq<bool>, e: Entry): seq<bool> {
    if e.isIntersecting then Highlight(hrefs, e.id) else flags
  }

  /** The observer callback: the entries in order. */
  function AfterEntries(hrefs: seq<string>, flags: seq<bool>, entries: seq<Entry>): seq<bool> {
    if entries == [] then flags
    else AfterEntry(hrefs, AfterEntries(hrefs, flags, entries[..|entries| - 1]), entries[|entries| - 1])
  }

  /** The `id` of the last entry in view, if any. */
  function LastInView(entries: seq<Entry>): (r: Option<string>)
    ensures r.Some? ==> exists k | 0 <= k < |entries| :: entries[k] == Entry(true, r.value)
  {
    if entries == [] then None
    else if entries[|entries| - 1].isIntersecting then Some(entries[|entries| - 1].id)
    else LastInView(entries[..|entries| - 1])
  }

  /** The callback leaves the flags as the last entry in view sets them,
      and untouched when no entry is in view. */
  lemma {:induction false} EntriesLastWins(hrefs: seq<string>, flags: seq<bool>, entries: seq<Entry>)
    ensures AfterEntries(hrefs, flags, entries)
      == match LastInView(entries)
         case None => flags
         case Some(id) => Highlight(hrefs, id)
  {
    if entries != [] {
      EntriesLastWins(hrefs, flags, entries[..|entries| - 1]);
    }
  }

  /** Never more than one link is active. */
  lemma EntriesKeepOneHot(hrefs: seq<string>, flags: seq<bool>, entries: seq<Entry>)
    requires AtMostOne(flags)
    ensures AtMostOne(AfterEntries(hrefs, flags, entries))
  {
    EntriesLastWins(hrefs, flags, entries);
    match LastInView(entries)
    case None =>
    case Some(id) => HighlightOneHot(hrefs, id);
  }

  // ---------------------------------------------------------------------
  // The navigation bar

  class NavBar {
    var scrolled: bool
    var menuActive: bool
    var toggleActive: bool
    /** The `href` of each `.nav-link`, in document order. */
    const hrefs: seq<string>
    /** The `active` class of each `.nav-link`. */
    const active: array<bool>

    function Flags(): Menu
      reads this
    {
      Menu(menuActive, toggleActive)
    }

    /** One flag per nav link. */
    predicate Valid()
      reads this
    {
      active.Length == |hrefs|
    }

    /** The page as loaded: not scrolled, menu closed, no link active. */
    constructor (hrefs: seq<string>)
      ensures Valid() && this.hrefs == hrefs && fresh(active)
      ensures !scrolled && Flags() == ClosedMenu && active[..] == seq(|hrefs|, _ => false)
    {
      this.hrefs := hrefs;
      scrolled, menuActive, toggleActive := false, false, false;
      active := new bool[|hrefs|](_ => false);
    }

    /** The window's scroll listener, at scroll position `y`. */
    method OnScroll(y: real)
      modifies this
      ensures scrolled == (y > ScrollThreshold) && Flags() == old(Flags())
    {
      if y > ScrollThreshold {
        scrolled := true;
      } else {
        scrolled := false;
      }
    }

    /** A click on `t`: the target's listener, then the document's. */
    method Click(t: Target)
      modifies this
      ensures Flags() == AfterClick(old(Flags()), t) && scrolled == old(scrolled)
    {
      match t {
        case Toggle =>
          menuActive := !menuActive;
          toggleActive := !toggleActive;
        case Link =>
          menuActive := false;
          toggleActive := false;
        case _ =>
      }
      if t != Toggle && t != Link && t != InMenu {
        menuActive := false;
        toggleActive := false;
      }
    }

    /** `navLinks.forEach(link => link.classList.remove('active'))`. */
    method ClearActive()
      requires Valid()
      modifies active
      ensures active[..] == seq(|hrefs|, _ => false)
    {
      var i := 0;
      while i < active.Length
        invariant 0 <= i <= active.Length
        invariant forall k | 0 <= k < i :: !active[k]
      {
        active[i] := false;
        i := i + 1;
      }
    }

    /** `document.querySelector('.nav-link[href="…"]')`: the first nav link
        with that `href`. */
    method FindLink(href: string) returns (k: Option<nat>)
      ensures k == FirstIndex(hrefs, href)
    {
      var i := 0;
      while i < |hrefs| && hrefs[i] != href
        invariant 0 <= i <= |hrefs|
        invariant href !in hrefs[..i]
      {
        assert hrefs[..i + 1] == hrefs[..i] + [hrefs[i]];
        i := i + 1;
      }
      if i < |hrefs| {
        k := Some(i);
      } else {
        assert hrefs[..i] == hrefs;
        k := None;
      }
      FirstIndexUnique(hrefs, href, k);
    }

    /** One entry of the observer callback. */
    method OnEntry(e: Entry)
      requires Valid()
      modifies active
      ensures active[..] == AfterEntry(hrefs, old(active[..]), e)
    {
      if e.isIntersecting {
        ClearActive();
        var link := FindLink(Anchor(e.id));
        if link.Some? {
          active[link.value] := true;
        }
        assert active[..] == Highlight(hrefs, e.id);
      }
    }

    /** The intersection observer's callback: `entries.forEach(…)`. */
    method OnIntersections(entries: seq<Entry>)
      requires Valid()
      modifies active
      ensures active[..] == AfterEntries(hrefs, old(active[..]), entries)
    {
      var i := 0;
      while i < |entries|
        invariant 0 <= i <= |entries|
        invariant active[..] == AfterEntries(hrefs, old(active[..]), entries[..i])
      {
        assert entries[..i + 1][..i] == entries[..i];
        OnEntry(entries[i]);
        i := i + 1;
      }
      assert entries[..i] == entries;
    }
  }

  /** What `FirstIndex` says about a position pins it down. */
  lemma FirstIndexUnique(s: seq<string>, x: string, k: Option<nat>)
    requires k.Some? ==> k.value < |s| && s[k.value] == x && x !in s[..k.value]
    requires k.None? ==> x !in s
    ensures k == FirstIndex(s, x)
  {
  }
}
