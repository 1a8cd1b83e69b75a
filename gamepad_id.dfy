/**
 * Device identity: a raw controller descriptor becomes a `DetectedDevice`
 * whose GUID is the stable key everything else uses.
 *
 * The two regular expressions that look for the vendor and product ids,
 * `(?:Vendor:|vid_)\s*([0-9a-fA-F]{4})` and `(?:Product:|pid_)\s*(...)`,
 * both with the `i` flag, and the clean-up `\(Vendor:.*?\)` are written out
 * as scans for their leftmost match.
 */
module GamepadId {
  import opened Types
  import opened Text

  /** The fixed tail of every GUID the game expects, after the product and vendor ids. */
  const DirtGuidSuffix: string := "-0000-0000-0000-504944564944"

  /** The id the program falls back to when a descriptor does not carry both ids. */
  const NoId: string := "0000"

  /** The first position at or after `i` that is not white space. */
  function SkipSpaces(s: string, i: nat): (j: nat)
    requires i <= |s|
    ensures i <= j <= |s|
    ensures forall k :: i <= k < j ==> IsSpace(s[k])
    ensures j == |s| || !IsSpace(s[j])
    decreases |s| - i
  {
    if i < |s| && IsSpace(s[i]) then SkipSpaces(s, i + 1) else i
  }

  /** Four hex digits start at position `j`. */
  predicate HexRunAt(s: string, j: nat)
  {
    j + 4 <= |s| && forall k :: j <= k < j + 4 ==> IsHexDigit(s[k])
  }

  /**
   * What `(?:a|b)\s*([0-9a-fA-F]{4})` with the `i` flag captures when its
   * match starts at `p`, or `None` when no match starts there. Hex digits are
   * not white space, so `\s*` can only succeed by taking every space there is.
   */
  function GroupAt(s: string, p: nat, a: string, b: string): (g: Option<string>)
    ensures g.Some? ==> |g.value| == 4 && forall k :: 0 <= k < 4 ==> IsHexDigit(g.value[k])
  {
    if MatchesIgnoringCase(s, p, a) && HexRunAt(s, SkipSpaces(s, p + |a|)) then
      var j := SkipSpaces(s, p + |a|); Some(s[j..j + 4])
    else if MatchesIgnoringCase(s, p, b) && HexRunAt(s, SkipSpaces(s, p + |b|)) then
      var j := SkipSpaces(s, p + |b|); Some(s[j..j + 4])
    else
      None
  }

  /** A match: where it starts and the four hex digits it captured. */
  datatype Hit = Hit(pos: nat, group: string)

  /** The leftmost match at or after position `from` (what `String.prototype.match` returns). */
  function FirstHit(s: string, a: string, b: string, from: nat): (h: Option<Hit>)
    ensures h.Some? ==> from <= h.value.pos && GroupAt(s, h.value.pos, a, b) == Some(h.value.group)
    ensures h.Some? ==> forall p :: from <= p < h.value.pos ==> GroupAt(s, p, a, b).None?
    ensures h.None? ==> forall p :: from <= p <= |s| ==> GroupAt(s, p, a, b).None?
    decreases |s| - from
  {
    if from > |s| then None
    else
      match GroupAt(s, from, a, b)
      case Some(g) => Some(Hit(from, g))
      case None => FirstHit(s, a, b, from + 1)
  }

  function VendorHit(s: string): Option<Hit>
  {
    FirstHit(s, "Vendor:", "vid_", 0)
  }

  function ProductHit(s: string): Option<Hit>
  {
    FirstHit(s, "Product:", "pid_", 0)
  }

  /**
   * The first `)` at or after `q` that `.*?` can reach: the lazy group stops at
   * the first `)`, and `.` does not cross a line terminator.
   */
  function CloseParen(s: string, q: nat): (j: Option<nat>)
    ensures j.Some? ==> q <= j.value < |s| && s[j.value] == ')'
    ensures j.Some? ==> forall k :: q <= k < j.value ==> s[k] != ')' && !IsLineTerminator(s[k])
    ensures j.None? ==> forall k :: q <= k < |s| && s[k] == ')' ==> exists t :: q <= t < k && IsLineTerminator(s[t])
    decreases |s| - q
  {
    if q >= |s| then None
    else if s[q] == ')' then Some(q)
    else if IsLineTerminator(s[q]) then None
    else CloseParen(s, q + 1)
  }

  /** Where the match of `\(Vendor:.*?\)` that starts at `p` ends (its closing parenthesis). */
  function VendorGroupAt(s: string, p: nat): Option<nat>
  {
    if p + 8 <= |s| && s[p..p + 8] == "(Vendor:" then CloseParen(s, p + 8) else None
  }

  /** The leftmost match of `\(Vendor:.*?\)` at or after `from`: its start and its closing parenthesis. */
  function FirstVendorGroup(s: string, from: nat): (m: Option<(nat, nat)>)
    ensures m.Some? ==> from <= m.value.0 && VendorGroupAt(s, m.value.0) == Some(m.value.1)
    ensures m.Some? ==> forall p :: from <= p < m.value.0 ==> VendorGroupAt(s, p).None?
    ensures m.None? ==> forall p :: from <= p <= |s| ==> VendorGroupAt(s, p).None?
    decreases |s| - from
  {
    if from > |s| then None
    else
      match VendorGroupAt(s, from)
      case Some(j) => Some((from, j))
      case None => FirstVendorGroup(s, from + 1)
  }

  /** `s.replace(/\(Vendor:.*?\)/, '')`: the first such group cut out, or `s` itself. */
  function StripVendorGroup(s: string): (r: string)
    ensures FirstVendorGroup(s, 0).None? ==> r == s
    ensures FirstVendorGroup(s, 0).Some? ==>
              var (p, j) := FirstVendorGroup(s, 0).value;
              p < j < |s| && r == s[..p] + s[j + 1..]
  {
    match FirstVendorGroup(s, 0)
    case None => s
    case Some((p, j)) => s[..p] + s[j + 1..]
  }

  /** The GUID the game knows a device by: product id, vendor id and the fixed tail, in braces. */
  function Guid(pid: string, vid: string): string
  {
    "{" + pid + vid + DirtGuidSuffix + "}"
  }

  /** The name the program gives a device whose descriptor cleans up to nothing. */
  function UnknownDeviceName(index: nat): string
  {
    "Unknown Device " + DecimalString(index + 1)
  }

  /**
   * `parseGamepadId`: the descriptor, the device's enumeration index and its
   * live axis and button counts become a device record.
   */
  function ParseGamepadId(idString: string, index: nat, axesCount: nat, buttonsCount: nat): (d: DetectedDevice)
    ensures d.index == index && d.id == idString
    ensures d.axesCount == axesCount && d.buttonsCount == buttonsCount
    ensures d.guid == Guid(d.pid, d.vid)
    ensures |d.vid| == 4 && |d.pid| == 4
    ensures VendorHit(idString).None? || ProductHit(idString).None? ==>
              d.vid == NoId && d.pid == NoId && d.name == idString
    ensures VendorHit(idString).Some? && ProductHit(idString).Some? ==>
              && d.vid == UpperAsciiString(VendorHit(idString).value.group)
              && d.pid == UpperAsciiString(ProductHit(idString).value.group)
              && d.name != []
              && (d.name == Trim(StripVendorGroup(idString))
                  || (Trim(StripVendorGroup(idString)) == [] && d.name == UnknownDeviceName(index)))
  {
    var vendor := VendorHit(idString);
    var product := ProductHit(idString);
    var (vid, pid, name) :=
      if vendor.Some? && product.Some? then
        var cleaned := Trim(StripVendorGroup(idString));
        (UpperAsciiString(vendor.value.group), UpperAsciiString(product.value.group),
         if cleaned == [] then UnknownDeviceName(index) else cleaned)
      else
        (NoId, NoId, idString);
    DetectedDevice(index, idString, name, vid, pid, Guid(pid, vid), axesCount, buttonsCount)
  }

  /** Four hex digits none of which is a lower-case letter. */
  predicate IsUpperHexId(v: string)
  {
    |v| == 4 && forall k :: 0 <= k < 4 ==> IsHexDigit(v[k]) && !('a' <= v[k] <= 'z')
  }

  lemma UpperOfHexId(g: string)
    requires |g| == 4 && forall k :: 0 <= k < 4 ==> IsHexDigit(g[k])
    ensures IsUpperHexId(UpperAsciiString(g))
  {
    var u := UpperAsciiString(g);
    forall k | 0 <= k < 4 ensures IsHexDigit(u[k]) && !('a' <= u[k] <= 'z') {
      assert u[k] == UpperAscii(g[k]);
    }
  }

  /** The ids a device carries are upper-case hex digits, whether resolved or not. */
  lemma IdsAreUpperHex(idString: string, index: nat, axesCount: nat, buttonsCount: nat)
    ensures var d := ParseGamepadId(idString, index, axesCount, buttonsCount);
            IsUpperHexId(d.vid) && IsUpperHexId(d.pid)
  {
    var vendor := VendorHit(idString);
    var product := ProductHit(idString);
    if vendor.Some? && product.Some? {
      UpperOfHexId(vendor.value.group);
      UpperOfHexId(product.value.group);
    } else {
      assert IsUpperHexId(NoId);
    }
  }

  /** The GUID carries the product id before the vendor id, at fixed places, and is 38 characters long. */
  lemma GuidLayout(pid: string, vid: string)
    requires |pid| == 4 && |vid| == 4
    ensures var guid := Guid(pid, vid);
            && |guid| == 38
            && guid[0] == '{' && guid[37] == '}'
            && guid[1..5] == pid && guid[5..9] == vid
            && guid[9..37] == DirtGuidSuffix
  {
  }

  // ----- The usual descriptor shape: "<name> (Vendor: vvvv Product: pppp)" -----

  /** One of the four id labels starts at `p`, case ignored. */
  predicate IdLabelAt(s: string, p: nat)
  {
    || MatchesIgnoringCase(s, p, "Vendor:") || MatchesIgnoringCase(s, p, "vid_")
    || MatchesIgnoringCase(s, p, "Product:") || MatchesIgnoringCase(s, p, "pid_")
  }

  predicate NoIdLabel(s: string)
  {
    forall p :: 0 <= p < |s| ==> !IdLabelAt(s, p)
  }

  predicate IsHexId(v: string)
  {
    |v| == 4 && forall k :: 0 <= k < 4 ==> IsHexDigit(v[k])
  }

  /** The text browsers append to a controller's name. */
  function IdTail(v: string, p: string): string
  {
    " (Vendor: " + v + " Product: " + p + ")"
  }

  /** A pattern without a space cannot match across a space that ends `t`. */
  lemma MatchStaysInside(t: string, u: string, p: nat, pat: string)
    requires |u| > 0 && u[0] == ' '
    requires forall k :: 0 <= k < |pat| ==> pat[k] != ' '
    requires p < |t| && MatchesIgnoringCase(t + u, p, pat)
    ensures MatchesIgnoringCase(t, p, pat)
  {
    var s := t + u;
    if p + |pat| > |t| {
      NoMatchAcrossSpace(t, u, p, pat);
    }
    forall k | 0 <= k < |pat| ensures UpperAscii(t[p + k]) == UpperAscii(pat[k]) {
      assert s[p + k] == t[p + k];
    }
  }

  lemma NoMatchAcrossSpace(t: string, u: string, p: nat, pat: string)
    requires |u| > 0 && u[0] == ' '
    requires forall k :: 0 <= k < |pat| ==> pat[k] != ' '
    requires p < |t| < p + |pat|
    ensures !MatchesIgnoringCase(t + u, p, pat)
  {
    var k := |t| - p;
    assert (t + u)[p + k] == ' ';
    assert UpperAscii(pat[k]) != ' ';
  }

  /** A pattern cannot match where its first character does not. */
  lemma FirstCharBlocks(s: string, q: nat, pat: string)
    requires |pat| > 0 && q < |s| && UpperAscii(s[q]) != UpperAscii(pat[0])
    ensures !MatchesIgnoringCase(s, q, pat)
  {
    assert s[q + 0] == s[q];
  }

  /** No label match starts inside a label-free name followed by a space. */
  lemma NoMatchInName(name: string, u: string, p: nat, pat: string)
    requires NoIdLabel(name)
    requires pat in {"Vendor:", "vid_", "Product:", "pid_"}
    requires |u| > 0 && u[0] == ' '
    requires p < |name|
    ensures !MatchesIgnoringCase(name + u, p, pat)
  {
    assert forall k :: 0 <= k < |pat| ==> pat[k] != ' ';
    assert !IdLabelAt(name, p);
    if MatchesIgnoringCase(name + u, p, pat) {
      MatchStaysInside(name, u, p, pat);
    }
  }

  /** The characters of the tail, by position. */
  lemma IdTailChars(v: string, p: string)
    requires IsHexId(v) && IsHexId(p)
    ensures var t := IdTail(v, p);
            && |t| == 29
            && t[..10] == " (Vendor: " && t[10..14] == v
            && t[14..24] == " Product: " && t[24..28] == p && t[28] == ')'
  {
  }

  /** No character of the tail before `Product:` folds to `P`. */
  lemma NoPBeforeProduct(v: string, p: string, k: nat)
    requires IsHexId(v) && IsHexId(p) && k < 15
    ensures UpperAscii(IdTail(v, p)[k]) != 'P'
  {
    var t := IdTail(v, p);
    IdTailChars(v, p);
    if k < 10 {
      assert t[k] == t[..10][k];
    } else if k < 14 {
      assert t[k] == v[k - 10];
    } else {
      assert t[k] == t[14..24][0];
    }
  }

  /** A match in `t` is a match in `name + t`, shifted by the name's length. */
  lemma ShiftMatch(name: string, t: string, i: nat, pat: string)
    requires MatchesIgnoringCase(t, i, pat)
    ensures MatchesIgnoringCase(name + t, |name| + i, pat)
  {
    var s := name + t;
    forall k | 0 <= k < |pat| ensures UpperAscii(s[|name| + i + k]) == UpperAscii(pat[k]) {
      assert s[|name| + i + k] == t[i + k];
    }
  }

  /** The vendor id of such a descriptor is found right after `Vendor:`. */
  lemma VendorOfTail(name: string, v: string, p: string)
    requires NoIdLabel(name) && IsHexId(v) && IsHexId(p)
    ensures VendorHit(name + IdTail(v, p)) == Some(Hit(|name| + 2, v))
  {
    var t := IdTail(v, p);
    var s := name + t;
    var n := |name|;
    IdTailChars(v, p);
    forall q | 0 <= q < n + 2 ensures GroupAt(s, q, "Vendor:", "vid_").None? {
      if q < n {
        NoMatchInName(name, t, q, "Vendor:");
        NoMatchInName(name, t, q, "vid_");
      } else {
        assert s[q] == t[q - n];
        assert t[q - n] == t[..10][q - n];
        FirstCharBlocks(s, q, "Vendor:");
        FirstCharBlocks(s, q, "vid_");
      }
    }
    assert t[2..9] == "Vendor:";
    assert MatchesIgnoringCase(t, 2, "Vendor:");
    ShiftMatch(name, t, 2, "Vendor:");
    assert s[n + 9] == t[9] == ' ';
    assert s[n + 10] == v[0];
    assert SkipSpaces(s, n + 9) == n + 10;
    assert s[n + 10..n + 14] == t[10..14];
    FirstHitIs(s, "Vendor:", "vid_", 0, n + 2);
  }

  /** The product id of such a descriptor is found right after `Product:`. */
  lemma ProductOfTail(name: string, v: string, p: string)
    requires NoIdLabel(name) && IsHexId(v) && IsHexId(p)
    ensures ProductHit(name + IdTail(v, p)) == Some(Hit(|name| + 15, p))
  {
    var t := IdTail(v, p);
    var s := name + t;
    var n := |name|;
    IdTailChars(v, p);
    forall q | 0 <= q < n + 15 ensures GroupAt(s, q, "Product:", "pid_").None? {
      if q < n {
        NoMatchInName(name, t, q, "Product:");
        NoMatchInName(name, t, q, "pid_");
      } else {
        assert s[q] == t[q - n];
        NoPBeforeProduct(v, p, q - n);
        FirstCharBlocks(s, q, "Product:");
        FirstCharBlocks(s, q, "pid_");
      }
    }
    assert t[15..23] == "Product:";
    assert MatchesIgnoringCase(t, 15, "Product:");
    ShiftMatch(name, t, 15, "Product:");
    assert s[n + 23] == t[23] == ' ';
    assert s[n + 24] == p[0];
    assert SkipSpaces(s, n + 23) == n + 24;
    assert s[n + 24..n + 28] == t[24..28];
    FirstHitIs(s, "Product:", "pid_", 0, n + 15);
  }

  /** When nothing matches before `q` and a match starts at `q`, that is the leftmost one. */
  lemma FirstHitIs(s: string, a: string, b: string, from: nat, q: nat)
    requires from <= q <= |s|
    requires forall p :: from <= p < q ==> GroupAt(s, p, a, b).None?
    requires GroupAt(s, q, a, b).Some?
    ensures FirstHit(s, a, b, from) == Some(Hit(q, GroupAt(s, q, a, b).value))
  {
  }

  /** When no match starts anywhere from `from` on, there is none. */
  lemma NoHit(s: string, a: string, b: string, from: nat)
    requires from <= |s|
    requires forall p :: from <= p <= |s| ==> GroupAt(s, p, a, b).None?
    ensures FirstHit(s, a, b, from).None?
  {
  }

  /** The clean-up cuts exactly the parenthesised tail, leaving the name and one space. */
  lemma StripOfTail(name: string, v: string, p: string)
    requires NoIdLabel(name) && IsHexId(v) && IsHexId(p)
    ensures StripVendorGroup(name + IdTail(v, p)) == name + " "
  {
    var s := name + IdTail(v, p);
    var n := |name|;
    NoVendorGroupInName(name, v, p);
    TailGroupCloses(name, v, p);
    FirstVendorGroupIs(s, 0, n + 1);
    assert s[..n + 1] == name + " ";
  }

  /** No `(Vendor:` group starts inside the name or at the space after it. */
  lemma NoVendorGroupInName(name: string, v: string, p: string)
    requires NoIdLabel(name) && IsHexId(v) && IsHexId(p)
    ensures forall q :: 0 <= q < |name| + 1 ==> VendorGroupAt(name + IdTail(v, p), q).None?
  {
    var t := IdTail(v, p);
    var s := name + t;
    var n := |name|;
    IdTailChars(v, p);
    forall q | 0 <= q < n + 1 ensures VendorGroupAt(s, q).None? {
      if q + 1 < n && q + 8 <= |s| && s[q..q + 8] == "(Vendor:" {
        assert forall k :: 0 <= k < 7 ==> s[q + 1 + k] == "Vendor:"[k];
        assert MatchesIgnoringCase(s, q + 1, "Vendor:");
        NoMatchInName(name, t, q + 1, "Vendor:");
      } else if q + 1 == n {
        assert s[q + 1] == t[0] == ' ';
      } else if q == n {
        assert s[q] == t[0] == ' ';
      }
    }
  }

  /** The group that opens after the name closes at the tail's last character. */
  lemma TailGroupCloses(name: string, v: string, p: string)
    requires IsHexId(v) && IsHexId(p)
    ensures VendorGroupAt(name + IdTail(v, p), |name| + 1) == Some(|name| + 28)
  {
    var t := IdTail(v, p);
    var s := name + t;
    var n := |name|;
    IdTailChars(v, p);
    assert s[n + 1..n + 9] == t[1..9] == "(Vendor:";
    forall k | n + 9 <= k < n + 28 ensures s[k] != ')' && !IsLineTerminator(s[k]) {
      assert s[k] == t[k - n];
      if k - n < 10 {
        assert t[k - n] in t[..10];
      } else if k - n < 14 {
        assert t[k - n] == v[k - n - 10];
      } else if k - n < 24 {
        assert t[k - n] in t[14..24];
      } else {
        assert t[k - n] == p[k - n - 24];
      }
    }
    assert s[n + 28] == t[28];
    CloseParenIs(s, n + 9, n + 28);
  }

  lemma CloseParenIs(s: string, q: nat, j: nat)
    requires q <= j < |s| && s[j] == ')'
    requires forall k :: q <= k < j ==> s[k] != ')' && !IsLineTerminator(s[k])
    ensures CloseParen(s, q) == Some(j)
  {
  }

  lemma FirstVendorGroupIs(s: string, from: nat, q: nat)
    requires from <= q <= |s|
    requires forall p :: from <= p < q ==> VendorGroupAt(s, p).None?
    requires VendorGroupAt(s, q).Some?
    ensures FirstVendorGroup(s, from) == Some((q, VendorGroupAt(s, q).value))
  {
  }

  /**
   * A descriptor `<name> (Vendor: vvvv Product: pppp)` whose name carries no
   * id label resolves to the upper-cased ids, a GUID with the product id
   * first, and the trimmed name (or the fallback name when that is empty).
   */
  lemma ResolvesUsualDescriptor(name: string, v: string, p: string, index: nat, axesCount: nat, buttonsCount: nat)
    requires NoIdLabel(name) && IsHexId(v) && IsHexId(p)
    ensures var d := ParseGamepadId(name + IdTail(v, p), index, axesCount, buttonsCount);
            && d.vid == UpperAsciiString(v)
            && d.pid == UpperAsciiString(p)
            && d.guid == Guid(UpperAsciiString(p), UpperAsciiString(v))
            && d.name == (if Trim(name) == [] then UnknownDeviceName(index) else Trim(name))
  {
    VendorOfTail(name, v, p);
    ProductOfTail(name, v, p);
    StripOfTail(name, v, p);
    TrimIgnoresTrailingSpace(name, ' ');
  }

  /** A descriptor with no vendor label keeps its text as the name and gets the all-zero ids. */
  lemma UnresolvedKeepsDescriptor(idString: string, index: nat, axesCount: nat, buttonsCount: nat)
    requires forall p :: 0 <= p < |idString| ==>
               !MatchesIgnoringCase(idString, p, "Vendor:") && !MatchesIgnoringCase(idString, p, "vid_")
    ensures var d := ParseGamepadId(idString, index, axesCount, buttonsCount);
            && d.vid == "0000" && d.pid == "0000" && d.name == idString
            && d.guid == "{00000000" + DirtGuidSuffix + "}"
  {
    forall p | 0 <= p <= |idString| ensures GroupAt(idString, p, "Vendor:", "vid_").None? {
      if p < |idString| {
        assert !MatchesIgnoringCase(idString, p, "Vendor:") && !MatchesIgnoringCase(idString, p, "vid_");
      }
    }
    NoHit(idString, "Vendor:", "vid_", 0);
    assert Guid(NoId, NoId) == "{00000000" + DirtGuidSuffix + "}";
  }
}
