/** Fixed windows aligned to multiples of their width, as gateway.py and
    tenant_resources.py in libs/shared both compute them. */
module AlignedWindows {
  /** The start of the window that contains a reading. */
  function WindowStart(width: int, now: int): int
    requires width > 0
  {
    now - now % width
  }

  lemma WindowHolds(width: int, now: int)
    requires width > 0
    ensures WindowStart(width, now) <= now < WindowStart(width, now) + width
    ensures WindowStart(width, now) % width == 0
  {
    assert WindowStart(width, now) == (now / width) * width;
    MultipleModulo(now / width, width);
  }

  lemma MultipleModulo(q: int, width: int)
    requires width > 0
    ensures (q * width) % width == 0
  {
    var x := q * width;
    var k := x / width;
    assert x == k * width + x % width;
    assert (q - k) * width == x % width;
    ScaledSign(q - k, width);
  }

  lemma ScaledSign(n: int, width: int)
    requires width > 0
    ensures n >= 1 ==> n * width >= width
    ensures n == 0 ==> n * width == 0
    ensures n <= -1 ==> n * width <= -width
  {
    if n >= 1 {
      assert (n - 1) * width >= 0;
    } else if n <= -1 {
      assert (-n - 1) * width >= 0;
    }
  }

  /** Two aligned starts are equal or at least one window apart. */
  lemma AlignedApart(s: int, t: int, width: int)
    requires width > 0 && s % width == 0 && t % width == 0 && s < t
    ensures s + width <= t
  {
    var n := t / width - s / width;
    assert t - s == n * width;
    ScaledSign(n, width);
  }

  lemma NextAligned(s: int, width: int)
    requires width > 0 && s % width == 0
    ensures (s + width) % width == 0
  {
    assert s + width == (s / width + 1) * width;
    MultipleModulo(s / width + 1, width);
  }

  lemma StartsMonotone(width: int, early: int, late: int)
    requires width > 0 && early <= late
    ensures WindowStart(width, early) <= WindowStart(width, late)
  {
    WindowHolds(width, early);
    WindowHolds(width, late);
    if WindowStart(width, late) < WindowStart(width, early) {
      AlignedApart(WindowStart(width, late), WindowStart(width, early), width);
    }
  }

  /** An aligned window that contains a reading is the reading's window. */
  lemma InWindow(width: int, now: int, s: int)
    requires width > 0 && s % width == 0 && s <= now < s + width
    ensures WindowStart(width, now) == s
  {
    WindowHolds(width, now);
    var t := WindowStart(width, now);
    if t < s {
      AlignedApart(t, s, width);
    } else if s < t {
      AlignedApart(s, t, width);
    }
  }
}
