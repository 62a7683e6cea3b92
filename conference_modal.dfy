/** The conference pop-up: a modal that opens by itself after a delay or
    once when the reader scrolls past half the page, opens from the two
    "show" buttons, and closes from its close button, its overlay or the
    Escape key. Closing hides the element only when a 700 ms timer fires;
    that timer is the explicit step `HideTimerFires`. */
module ConferenceModal {

  /** The custom events the modal element dispatches. */
  datatype ModalEvent = Opened | Closed

  /** The ids of the two buttons that open the modal. */
  const ShowButtonId := "showConferenciaModal"
  const ShowButtonMobileId := "showConferenciaModalMobile"

  /** `modalOpened` and `modalClosed` strictly alternate, starting with
      `modalOpened`. */
  predicate Alternating(events: seq<ModalEvent>) {
    forall i :: 0 <= i < |events| ==> events[i] == if i % 2 == 0 then Opened else Closed
  }

  /** `(scrollY / (scrollHeight - innerHeight)) * 100 > 50` in exact
      arithmetic: a positive scroll over an empty range divides to
      +Infinity, a zero one to NaN, and a negative range flips the
      comparison. */
  function PastHalf(scrollY: int, scrollHeight: int, innerHeight: int): (past: bool)
    ensures scrollHeight - innerHeight > 0 ==> (past <==> 2 * scrollY > scrollHeight - innerHeight)
    ensures scrollHeight == innerHeight ==> (past <==> scrollY > 0)
    ensures past ==> scrollY != 0
  {
    var range := scrollHeight - innerHeight;
    if range > 0 then 2 * scrollY > range
    else if range == 0 then scrollY > 0
    else 2 * scrollY < range
  }

  /** Scrolling further down a page never takes it back under the half-way
      mark. */
  lemma PastHalfMonotone(y: int, y': int, scrollHeight: int, innerHeight: int)
    requires scrollHeight - innerHeight >= 0 && y <= y'
    requires PastHalf(y, scrollHeight, innerHeight)
    ensures PastHalf(y', scrollHeight, innerHeight)
  {
  }

  /** The modal's state: the `isOpen` field, the element's `hidden` class
      and `aria-hidden` attribute, the body's `overflow: hidden`, the
      events dispatched so far, the close timers not yet fired, the
      pending 5 s auto-show timer and the `hasShownOnScroll` flag. */
  class Modal {
    var isOpen: bool
    var hidden: bool
    var ariaHidden: bool
    var scrollLocked: bool
    var events: seq<ModalEvent>
    var pendingHides: nat
    var autoShowPending: bool
    var hasShownOnScroll: bool
    /** How many times the scroll listener opened the modal. */
    ghost var scrollOpens: nat

    ghost predicate Valid()
      reads this
    {
      && Alternating(events)
      && (isOpen <==> |events| % 2 == 1)
      && ariaHidden == !isOpen
      && (!isOpen && pendingHides == 0 ==> hidden && !scrollLocked)
      && scrollOpens == (if hasShownOnScroll then 1 else 0)
    }

    /** A modal over markup that starts hidden, with the auto-show timer
        started. */
    constructor ()
      ensures Valid()
      ensures !isOpen && hidden && ariaHidden && !scrollLocked && events == []
      ensures pendingHides == 0 && autoShowPending && !hasShownOnScroll
    {
      isOpen, hidden, ariaHidden, scrollLocked := false, true, true, false;
      events, pendingHides := [], 0;
      autoShowPending, hasShownOnScroll := true, false;
      scrollOpens := 0;
    }

    /** `open`: nothing if already open; otherwise show the element, lock
        the page's scrolling and dispatch `modalOpened`. */
    method Open()
      requires Valid()
      modifies this`isOpen, this`hidden, this`ariaHidden, this`scrollLocked, this`events
      ensures Valid()
      ensures old(isOpen) ==>
        isOpen && hidden == old(hidden) && scrollLocked == old(scrollLocked) && events == old(events)
      ensures !old(isOpen) ==> isOpen && !hidden && scrollLocked && events == old(events) + [Opened]
    {
      if isOpen {
        return;
      }
      isOpen := true;
      hidden := false;
      scrollLocked := true;
      ariaHidden := false;
      events := events + [Opened];
    }

    /** `close`: nothing if already closed; otherwise dispatch
        `modalClosed` and start the timer that hides the element. */
    method Close()
      requires Valid()
      modifies this`isOpen, this`ariaHidden, this`events, this`pendingHides
      ensures Valid()
      ensures !old(isOpen) ==> !isOpen && events == old(events) && pendingHides == old(pendingHides)
      ensures old(isOpen) ==>
        !isOpen && events == old(events) + [Closed] && pendingHides == old(pendingHides) + 1
    {
      if !isOpen {
        return;
      }
      isOpen := false;
      ariaHidden := true;
      pendingHides := pendingHides + 1;
      events := events + [Closed];
    }

    /** The close timer fires: hide the element and unlock the page,
        whatever `isOpen` is by now. */
    method HideTimerFires()
      requires Valid() && pendingHides > 0
      modifies this`hidden, this`scrollLocked, this`pendingHides
      ensures Valid()
      ensures hidden && !scrollLocked && pendingHides == old(pendingHides) - 1
    {
      hidden := true;
      scrollLocked := false;
      pendingHides := pendingHides - 1;
    }

    /** The document `keydown` listener: Escape closes an open modal. */
    method OnKeyDown(key: string)
      requires Valid()
      modifies this`isOpen, this`ariaHidden, this`events, this`pendingHides
      ensures Valid()
      ensures key == "Escape" && old(isOpen) ==>
        !isOpen && events == old(events) + [Closed] && pendingHides == old(pendingHides) + 1
      ensures !(key == "Escape" && old(isOpen)) ==>
        isOpen == old(isOpen) && events == old(events) && pendingHides == old(pendingHides)
    {
      if key == "Escape" && isOpen {
        Close();
      }
    }

    /** The `wheel` listener: the default scroll is prevented exactly while
        the modal is open. */
    method OnWheel() returns (preventDefault: bool)
      requires Valid()
      ensures preventDefault <==> isOpen
      ensures preventDefault ==> events != [] && events[|events| - 1] == Opened
    {
      preventDefault := isOpen;
    }

    /** The document `click` listener: a click on either show button opens
        the modal; any other click does nothing here. */
    method OnDocumentClick(targetId: string)
      requires Valid()
      modifies this`isOpen, this`hidden, this`ariaHidden, this`scrollLocked, this`events
      ensures Valid()
      ensures (targetId == ShowButtonId || targetId == ShowButtonMobileId) ==> isOpen
      ensures (targetId == ShowButtonId || targetId == ShowButtonMobileId) && !old(isOpen) ==>
        events == old(events) + [Opened] && !hidden && scrollLocked
      ensures !((targetId == ShowButtonId || targetId == ShowButtonMobileId) && !old(isOpen)) ==>
        isOpen == old(isOpen) && events == old(events) &&
        hidden == old(hidden) && scrollLocked == old(scrollLocked)
    {
      if targetId == ShowButtonId || targetId == ShowButtonMobileId {
        Open();
      }
    }

    /** The 5 s auto-show timer fires once and opens the modal. */
    method OnAutoShowTimer()
      requires Valid() && autoShowPending
      modifies this`isOpen, this`hidden, this`ariaHidden, this`scrollLocked, this`events, this`autoShowPending
      ensures Valid()
      ensures isOpen && !autoShowPending
      ensures !old(isOpen) ==> events == old(events) + [Opened] && !hidden && scrollLocked
      ensures old(isOpen) ==>
        events == old(events) && hidden == old(hidden) && scrollLocked == old(scrollLocked)
    {
      autoShowPending := false;
      Open();
    }

    /** The window `scroll` listener: the first time the modal is closed
        and the page is scrolled past half, open it; never again after. */
    method OnScroll(scrollY: int, scrollHeight: int, innerHeight: int)
      requires Valid()
      modifies this`isOpen, this`hidden, this`ariaHidden, this`scrollLocked, this`events,
        this`hasShownOnScroll, this`scrollOpens
      ensures Valid()
      ensures scrollOpens <= 1
      ensures !old(hasShownOnScroll) && !old(isOpen) && PastHalf(scrollY, scrollHeight, innerHeight) ==>
        isOpen && hasShownOnScroll && events == old(events) + [Opened] && scrollOpens == 1 &&
        !hidden && scrollLocked
      ensures !(!old(hasShownOnScroll) && !old(isOpen) && PastHalf(scrollY, scrollHeight, innerHeight)) ==>
        isOpen == old(isOpen) && events == old(events) &&
        hasShownOnScroll == old(hasShownOnScroll) && scrollOpens == old(scrollOpens) &&
        hidden == old(hidden) && scrollLocked == old(scrollLocked)
    {
      if !hasShownOnScroll && !isOpen {
        if PastHalf(scrollY, scrollHeight, innerHeight) {
          Open();
          hasShownOnScroll := true;
          scrollOpens := scrollOpens + 1;
        }
      }
    }

    /** `show`: the public name of `open`. */
    method Show()
      requires Valid()
      modifies this`isOpen, this`hidden, this`ariaHidden, this`scrollLocked, this`events
      ensures Valid()
      ensures isOpen
      ensures !old(isOpen) ==> events == old(events) + [Opened] && !hidden && scrollLocked
      ensures old(isOpen) ==>
        events == old(events) && hidden == old(hidden) && scrollLocked == old(scrollLocked)
    {
      Open();
    }

    /** `hide`: the public name of `close`. */
    method Hide()
      requires Valid()
      modifies this`isOpen, this`ariaHidden, this`events, this`pendingHides
      ensures Valid()
      ensures !isOpen
      ensures old(isOpen) ==> events == old(events) + [Closed]
      ensures !old(isOpen) ==> events == old(events)
      ensures pendingHides == old(pendingHides) + (if old(isOpen) then 1 else 0)
    {
      Close();
    }

    /** `isModalOpen`. */
    method IsModalOpen() returns (open: bool)
      requires Valid()
      ensures open <==> isOpen
      ensures open <==> |events| % 2 == 1
    {
      open := isOpen;
    }
  }

  /** Re-opening within the close delay: the earlier close timer still
      fires and hides the element while `isOpen` says the modal is open. */
  method ReopenWithinCloseDelay() returns (m: Modal)
    ensures m.Valid()
    ensures m.isOpen && m.hidden && !m.scrollLocked
    ensures m.events == [Opened, Closed, Opened]
  {
    m := new Modal();
    m.Open();
    m.Close();
    m.Open();
    m.HideTimerFires();
  }
}
