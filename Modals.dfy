/**
 * The modal controller and the page-wide scroll lock.
 *
 * `showModal` marks a modal active and locks page scrolling by fixing the
 * document body in place, shifted up by the current scroll offset, which it
 * writes into the body's `top` style as `-{offset}px`. The fixed body leaves
 * the window nothing to scroll, so its offset reads 0 while the lock is
 * held, and a `showModal` over a locked page saves `-0px`. `closeModal` marks
 * the modal inactive, clears the four body-style fields and scrolls the
 * window to `parseInt(top || '0') * -1`, reading the saved offset back from
 * the lock itself. The lock is a single slot shared by every modal and by
 * the mobile menu (which writes the same `overflow` field): a second
 * `showModal` overwrites `top`, and any `closeModal` unlocks the page even
 * while another modal is still active.
 */
module Modals {
  import opened Wrappers
  import opened Text

  /** Ids of the three modals the page script opens by name. */
  const SuccessModal: string := "successModal"
  const OrderModal: string := "orderModal"
  const ServiceDetailsModal: string := "serviceDetailsModal"

  /** The `top` value `showModal` writes for the scroll offset `n`: `-{n}px`. */
  function LockTop(n: nat): (r: string)
    ensures |r| >= 4 && r[0] == '-' && r[|r| - 2..] == "px" && AllDigits(r[1..|r| - 2])
  {
    "-" + Decimal(n) + "px"
  }

  /**
   * Where `closeModal` scrolls for a given `top`: `parseInt(top || '0') * -1`.
   * A NaN target scrolls to 0, and so does a negative one (the window clamps it).
   */
  function RestoredScroll(top: string): (r: nat)
    ensures top == "" ==> r == 0
  {
    match ParseInt(if top == "" then "0" else top)
    case None => 0
    case Some(v) => if v > 0 then 0 else -v
  }

  /** Opening at offset `n` and closing again scrolls back to exactly `n`, 0 included. */
  lemma RestoreAfterLock(n: nat)
    ensures RestoredScroll(LockTop(n)) == n
  {
    ParseNegativePixels(n);
  }

  /** A service's entry in the static catalogue shown by the service-details modal. */
  datatype Feature = Feature(title: string, description: string, highlight: bool)
  datatype ServiceDetail = ServiceDetail(title: string, price: string, duration: string, features: seq<Feature>)

  /** An `<option>` of the order form's service selector. */
  datatype SelectOption = SelectOption(text: string, value: string)

  /**
   * `options.find(opt => opt.text.includes(service))`, as an index: the first
   * option whose text contains `service`, or `None` when no option does.
   */
  function FirstIncluding(options: seq<SelectOption>, service: string): (r: Option<nat>)
    ensures r.Some? ==> r.value < |options| && Includes(options[r.value].text, service)
    ensures r.Some? ==> forall j :: 0 <= j < r.value ==> !Includes(options[j].text, service)
    ensures r.None? ==> forall j :: 0 <= j < |options| ==> !Includes(options[j].text, service)
  {
    if options == [] then None
    else if Includes(options[0].text, service) then Some(0)
    else match FirstIncluding(options[1..], service)
      case None => None
      case Some(k) => Some(k + 1)
  }

  /**
   * The document state the modal controller and the menu share: which
   * modal elements carry the `active` class, the four body-style fields of
   * the scroll lock, the window's vertical scroll offset, and whether the
   * mobile menu (burger and navigation list together) is open.
   */
  class Page {
    /** Ids of the modal elements present in the markup. */
    const modals: set<string>
    var active: set<string>
    var overflow: string
    var position: string
    var top: string
    var width: string
    var scrollY: nat
    var menuOpen: bool

    ghost predicate Valid()
      reads this
    {
      active <= modals
    }

    /**
     * The body is locked with `top` saving `offset`; the fixed body leaves
     * the window at offset 0.
     */
    predicate LockedAt(offset: nat)
      reads this
    {
      overflow == "hidden" && position == "fixed" && top == LockTop(offset) && width == "100%" && scrollY == 0
    }

    /** No body-style field of the lock is set. */
    predicate Unlocked()
      reads this
    {
      overflow == "" && position == "" && top == "" && width == ""
    }

    constructor (modals: set<string>, scrollY: nat)
      ensures Valid() && Unlocked()
      ensures this.modals == modals && active == {} && this.scrollY == scrollY && !menuOpen
    {
      this.modals := modals;
      active := {};
      overflow, position, top, width := "", "", "", "";
      this.scrollY := scrollY;
      menuOpen := false;
    }

    /** `showModal(id)`: a missing element is ignored. */
    method ShowModal(id: string)
      requires Valid()
      modifies this
      ensures Valid() && menuOpen == old(menuOpen)
      ensures id in modals ==> active == old(active) + {id} && LockedAt(old(scrollY))
      ensures id !in modals ==> unchanged(this)
    {
      if id in modals {
        var offset := scrollY;
        active := active + {id};
        overflow := "hidden";
        position := "fixed";
        top := LockTop(offset);
        width := "100%";
        scrollY := 0;
      }
    }

    /** `closeModal(id)`: unlocks whatever else is open and scrolls to the offset read back from `top`. */
    method CloseModal(id: string)
      requires Valid()
      modifies this
      ensures Valid()
      ensures menuOpen == old(menuOpen)
      ensures id in modals ==>
        active == old(active) - {id} && Unlocked() && scrollY == RestoredScroll(old(top))
      ensures id !in modals ==> unchanged(this)
    {
      if id in modals {
        var target := RestoredScroll(top);
        active := active - {id};
        overflow, position, top, width := "", "", "", "";
        scrollY := target;
      }
    }

    /** Opening a modal and closing it again returns to where the page was, unlocked. */
    method OpenThenClose(id: string)
      requires Valid() && id in modals
      modifies this
      ensures Valid() && Unlocked()
      ensures active == old(active) - {id} && scrollY == old(scrollY) && menuOpen == old(menuOpen)
    {
      ShowModal(id);
      CloseModal(id);
      RestoreAfterLock(old(scrollY));
    }

    /**
     * A modal shown over a locked page saves offset 0, so closing it scrolls
     * to the top of the page, wherever the page was when the first modal
     * opened.
     */
    method ShowOverShown(first: string, second: string)
      requires Valid() && first in modals && second in modals
      modifies this
      ensures Valid() && Unlocked() && menuOpen == old(menuOpen)
      ensures active == old(active) + {first} - {second}
      ensures scrollY == 0
    {
      ShowModal(first);
      ShowModal(second);
      CloseModal(second);
      RestoreAfterLock(0);
    }

    /**
     * The Escape key: `closeModal` for every modal active when the key was
     * pressed. The first close restores the saved offset and empties `top`,
     * so with two or more active modals each later close scrolls to 0.
     */
    method Escape()
      requires Valid()
      modifies this
      ensures Valid() && active == {} && menuOpen == old(menuOpen)
      ensures old(active) != {} ==> Unlocked()
      ensures |old(active)| == 1 ==> scrollY == RestoredScroll(old(top))
      ensures |old(active)| >= 2 ==> scrollY == 0
      ensures old(active) == {} ==>
        overflow == old(overflow) && position == old(position) && top == old(top) &&
        width == old(width) && scrollY == old(scrollY)
    {
      var open := active;
      var remaining := open;
      ghost var closed := 0;
      while remaining != {}
        invariant Valid() && remaining <= open && active == remaining
        invariant closed == |open| - |remaining|
        invariant menuOpen == old(menuOpen)
        invariant closed == 0 ==>
          overflow == old(overflow) && position == old(position) && top == old(top) &&
          width == old(width) && scrollY == old(scrollY)
        invariant closed >= 1 ==> Unlocked()
        invariant closed == 1 ==> scrollY == RestoredScroll(old(top))
        invariant closed >= 2 ==> scrollY == 0
        decreases |remaining|
      {
        var id :| id in remaining;
        CloseModal(id);
        remaining := remaining - {id};
        closed := closed + 1;
      }
    }

    /** The burger button: flips the menu and sets `overflow` from the new state alone. */
    method ToggleMenu()
      modifies this`menuOpen, this`overflow
      ensures menuOpen == !old(menuOpen)
      ensures overflow == if menuOpen then "hidden" else ""
    {
      menuOpen := !menuOpen;
      overflow := if menuOpen then "hidden" else "";
    }

    /** A navigation link: closes the menu and clears `overflow`, even under an open modal. */
    method CloseMenu()
      modifies this`menuOpen, this`overflow
      ensures !menuOpen && overflow == ""
    {
      menuOpen := false;
      overflow := "";
    }
  }

  /** The service-details modal's content area and the catalogue it renders from. */
  class ServicePanel {
    const catalog: map<string, ServiceDetail>
    /** Whether the content element exists. */
    const present: bool
    /** The entry the panel currently renders, if any. */
    var shown: Option<ServiceDetail>

    constructor (catalog: map<string, ServiceDetail>, present: bool)
      ensures this.catalog == catalog && this.present == present && shown == None
    {
      this.catalog := catalog;
      this.present := present;
      shown := None;
    }

    /** Renders the catalogue entry for `serviceType`; an unknown tag leaves the panel as it was. */
    method ShowDetails(serviceType: string)
      modifies this
      ensures shown == if present && serviceType in catalog then Some(catalog[serviceType]) else old(shown)
    {
      if serviceType in catalog && present {
        shown := Some(catalog[serviceType]);
      }
    }
  }
}
