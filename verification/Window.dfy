/** The sender's side of flow control: the window type of common.go, without its lock. */
module SendWindow {
  import opened Words

  /** The two fields of a window that decide what a writer may send. */
  datatype WindowState = WindowState(win: uint32, closed: bool)

  /** What add does: refuse a credit that would carry the window past 2^32-1. */
  function Add(w: WindowState, n: uint32): (WindowState, bool) {
    if n == 0 then (w, true)
    else if w.win + n >= TWO32 then (w, false)
    else (w.(win := w.win + n), true)
  }

  /** The writer leaves the wait loop of reserve exactly in these states. */
  predicate Ready(w: WindowState) {
    w.win > 0 || w.closed
  }

  /** What reserve does once Ready: take as much as there is, up to the request. */
  function Reserve(w: WindowState, n: uint32): (WindowState, uint32) {
    var got := Min(w.win, n);
    (w.(win := w.win - got), got)
  }

  class Window {
    var win: uint32
    var closed: bool

    function State(): WindowState
      reads this
    {
      WindowState(win, closed)
    }

    constructor ()
      ensures State() == WindowState(0, false)
    {
      win, closed := 0, false;
    }

    /** The overflow test is the source's: the 32-bit sum is compared with the summand. */
    method AddCredit(n: uint32) returns (ok: bool)
      modifies this
      ensures (State(), ok) == Add(old(State()), n)
    {
      if n == 0 {
        return true;
      }
      if U32(win + n) < n {
        return false;
      }
      win := win + n;
      return true;
    }

    method Close()
      modifies this
      ensures State() == old(State()).(closed := true)
    {
      closed := true;
    }

    /** The part of reserve after its wait loop. */
    method ReserveSpace(n: uint32) returns (got: uint32, eof: bool)
      requires Ready(State())
      modifies this
      ensures (State(), got) == Reserve(old(State()), n)
      ensures eof == old(closed)
      ensures n > 0 && !eof ==> 0 < got <= n
    {
      got := n;
      if win < got {
        got := win;
      }
      win := win - got;
      eof := closed;
    }
  }
}
