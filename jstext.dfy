/** The part of JavaScript's `String.prototype.trim` that `addTask` relies
    on: stripping leading and trailing white space and line terminators. */
module JsText {

  /** The characters `trim` strips: the WhiteSpace and LineTerminator code
      points of the ECMAScript grammar (tab, line tabulation, form feed,
      space, no-break space, byte order mark, the other space separators,
      line feed, carriage return, line and paragraph separators). */
  predicate IsJsSpace(c: char)
  {
    var n := c as int;
    n == 0x09 || n == 0x0A || n == 0x0B || n == 0x0C || n == 0x0D ||
    n == 0x20 || n == 0xA0 || n == 0x1680 || (0x2000 <= n <= 0x200A) ||
    n == 0x2028 || n == 0x2029 || n == 0x202F || n == 0x205F ||
    n == 0x3000 || n == 0xFEFF
  }

  /** Reference definition: every character of `s` is white space. */
  predicate AllSpace(s: string)
  {
    forall i :: 0 <= i < |s| ==> IsJsSpace(s[i])
  }

  /** The index of the first character at or after `i` that is not white
      space, or `|s|` when there is none. */
  function TextStart(s: string, i: nat): (k: nat)
    requires i <= |s|
    ensures i <= k <= |s|
    ensures forall j :: i <= j < k ==> IsJsSpace(s[j])
    ensures k < |s| ==> !IsJsSpace(s[k])
    decreases |s| - i
  {
    if i < |s| && IsJsSpace(s[i]) then TextStart(s, i + 1) else i
  }

  /** The index just past the last character before `hi` and not before
      `lo` that is not white space, or `lo` when there is none. */
  function TextEnd(s: string, lo: nat, hi: nat): (m: nat)
    requires lo <= hi <= |s|
    ensures lo <= m <= hi
    ensures forall j :: m <= j < hi ==> IsJsSpace(s[j])
    ensures m > lo ==> !IsJsSpace(s[m - 1])
    decreases hi
  {
    if lo < hi && IsJsSpace(s[hi - 1]) then TextEnd(s, lo, hi - 1) else hi
  }

  /** `r` sits in `s` at offset `k` with nothing but white space on either
      side of it. */
  predicate SpaceAround(s: string, r: string, k: nat)
  {
    && k + |r| <= |s| && r == s[k..k + |r|]
    && (forall j :: 0 <= j < k ==> IsJsSpace(s[j]))
    && (forall j :: k + |r| <= j < |s| ==> IsJsSpace(s[j]))
  }

  /** `s.trim()`: the slice of `s` left between its leading and trailing
      white space. */
  function Trim(s: string): (r: string)
    ensures exists k: nat :: SpaceAround(s, r, k)
    ensures r != [] ==> !IsJsSpace(r[0]) && !IsJsSpace(r[|r| - 1])
  {
    var k := TextStart(s, 0);
    var m := TextEnd(s, k, |s|);
    assert SpaceAround(s, s[k..m], k);
    s[k..m]
  }

  /** `!s.trim()` holds, the test `addTask` makes, exactly when every
      character of `s` is white space. */
  lemma TrimEmptyIffBlank(s: string)
    ensures Trim(s) == [] <==> AllSpace(s)
  {
    var r := Trim(s);
    var k: nat :| SpaceAround(s, r, k);
    if r != [] {
      assert r[0] == s[k];
    } else {
      assert forall j :: 0 <= j < |s| ==> IsJsSpace(s[j]);
    }
  }
}
