/**
 * The pure string helpers of the receipt service: the data-URL prefix
 * stripping of `decodeBase64Image`, the 14-digit timestamp, the stored
 * file name and the receipt identity string.
 */
module Text {
  import opened Wrappers

  // ---------------------------------------------------------------------------
  // Searching a string (String.prototype.includes / split)
  // ---------------------------------------------------------------------------

  /** `pat` occurs in `s` starting at index `i`. */
  predicate OccursAt(s: string, pat: string, i: nat) {
    i + |pat| <= |s| && s[i..i + |pat|] == pat
  }

  /** The first index at or after `from` where `pat` occurs, if any. */
  function FirstFrom(s: string, pat: string, from: nat): (r: Option<nat>)
    ensures r.Some? ==> from <= r.value && OccursAt(s, pat, r.value)
    ensures forall j :: from <= j < (if r.Some? then r.value else |s| + 1) ==> !OccursAt(s, pat, j)
    decreases |s| - from
  {
    if from + |pat| > |s| then None
    else if s[from..from + |pat|] == pat then Some(from)
    else FirstFrom(s, pat, from + 1)
  }

  /** `s.includes(pat)`. */
  predicate Includes(s: string, pat: string): (b: bool)
    ensures b <==> exists i: nat :: OccursAt(s, pat, i)
  {
    FirstFrom(s, pat, 0).Some?
  }

  lemma NotIncludedNowhere(s: string, pat: string, j: nat)
    requires !Includes(s, pat)
    ensures !OccursAt(s, pat, j)
  {
  }

  /** An occurrence with none before it (from `from` on) is the one `FirstFrom` finds. */
  lemma FirstFromFinds(s: string, pat: string, from: nat, i: nat)
    requires from <= i && OccursAt(s, pat, i)
    requires forall k :: from <= k < i ==> !OccursAt(s, pat, k)
    ensures FirstFrom(s, pat, from) == Some(i)
  {
  }

  /** A window of `s` that holds no occurrence starting inside it does not include `pat`. */
  lemma {:induction false} SliceExcludes(s: string, pat: string, lo: nat, hi: nat)
    requires |pat| > 0 && lo <= hi <= |s|
    requires forall k :: lo <= k < hi ==> !OccursAt(s, pat, k)
    ensures !Includes(s[lo..hi], pat)
  {
    var w := s[lo..hi];
    forall k: nat
      ensures !OccursAt(w, pat, k)
    {
      if k + |pat| <= |w| {
        var u, v := w[k..k + |pat|], s[lo + k..lo + k + |pat|];
        assert u == v by {
          forall t | 0 <= t < |pat|
            ensures u[t] == v[t]
          {
          }
        }
        assert !OccursAt(s, pat, lo + k);
      }
    }
  }

  /** The occurrences in a suffix are the occurrences in the whole string, shifted. */
  lemma OccursInSuffix(s: string, pat: string, lo: nat, k: nat)
    requires lo <= |s|
    ensures OccursAt(s[lo..], pat, k) <==> OccursAt(s, pat, lo + k)
  {
    if lo + k + |pat| <= |s| {
      assert s[lo..][k..k + |pat|] == s[lo + k..lo + k + |pat|];
    }
  }

  // ---------------------------------------------------------------------------
  // decodeBase64Image: stripping the data-URL prefix
  // ---------------------------------------------------------------------------

  /** The marker that separates a data-URL header from its base64 payload. */
  const Marker: string := "base64,"

  /**
   * `image.includes('base64,') ? image.split('base64,')[1] : image`:
   * the segment between the first marker and the next one (or the end),
   * or the whole input when there is no marker.
   */
  function StripDataUrlPrefix(image: string): (cleaned: string)
    ensures !Includes(image, Marker) ==> cleaned == image
    ensures |cleaned| <= |image|
  {
    match FirstFrom(image, Marker, 0)
    case None => image
    case Some(i) =>
      var start := i + |Marker|;
      match FirstFrom(image, Marker, start)
      case None => image[start..]
      case Some(j) => image[start..j]
  }

  /**
   * With a marker first occurring at `i`, the cleaned payload is the text that
   * follows it, it stops at the end of the input or at the next marker, and it
   * holds no marker itself: exactly `split('base64,')[1]`.
   */
  lemma StripTakesSecondSegment(image: string, i: nat)
    requires OccursAt(image, Marker, i)
    requires forall k :: 0 <= k < i ==> !OccursAt(image, Marker, k)
    ensures i + |Marker| + |StripDataUrlPrefix(image)| <= |image|
    ensures image[i + |Marker|..i + |Marker| + |StripDataUrlPrefix(image)|] == StripDataUrlPrefix(image)
    ensures var stop := i + |Marker| + |StripDataUrlPrefix(image)|;
      stop == |image| || OccursAt(image, Marker, stop)
    ensures !Includes(StripDataUrlPrefix(image), Marker)
  {
    FirstFromFinds(image, Marker, 0, i);
    var start := i + |Marker|;
    var next := FirstFrom(image, Marker, start);
    var stop := if next.Some? then next.value else |image|;
    assert StripDataUrlPrefix(image) == image[start..stop];
    SliceExcludes(image, Marker, start, stop);
  }

  /** No occurrence of the marker starts inside `header` once the marker follows it. */
  lemma {:induction false} MarkerFirstAfterHeader(header: string, rest: string, k: nat)
    requires !Includes(header, Marker)
    requires k < |header|
    ensures !OccursAt(header + Marker + rest, Marker, k)
  {
    var image := header + Marker + rest;
    var h := |header|;
    if k + |Marker| <= h {
      assert header[k..k + |Marker|] == image[k..k + |Marker|];
      NotIncludedNowhere(header, Marker, k);
    } else if k + |Marker| <= |image| {
      // the window starting at k holds the marker's leading 'b' at an
      // offset between 1 and 6, where the marker itself has no 'b'
      assert image[h] == 'b';
      assert image[k..k + |Marker|][h - k] == 'b';
    }
  }

  /**
   * Round trip: putting a data-URL header in front of a payload and then
   * stripping it gives the payload back, when neither the header nor the
   * payload holds the marker (a base64 payload never does: it has no comma).
   */
  lemma {:induction false} StripUndoesDataUrlHeader(header: string, payload: string)
    requires !Includes(header, Marker)
    requires !Includes(payload, Marker)
    ensures StripDataUrlPrefix(header + Marker + payload) == payload
  {
    var image := header + Marker + payload;
    var h := |header|;
    assert image[h..h + |Marker|] == Marker;
    forall k | 0 <= k < h
      ensures !OccursAt(image, Marker, k)
    {
      MarkerFirstAfterHeader(header, payload, k);
    }
    FirstFromFinds(image, Marker, 0, h);
    var start := h + |Marker|;
    assert image[start..] == payload;
    forall j | start <= j
      ensures !OccursAt(image, Marker, j)
    {
      OccursInSuffix(image, Marker, start, j - start);
      NotIncludedNowhere(payload, Marker, j - start);
    }
    assert FirstFrom(image, Marker, start).None?;
  }

  // ---------------------------------------------------------------------------
  // The 14-digit timestamp: toISOString().replace(/[-:T.Z]/g, '').slice(0, 14)
  // ---------------------------------------------------------------------------

  /** The characters of the character class `[-:T.Z]`. */
  predicate IsIsoPunctuation(ch: char) {
    ch == '-' || ch == ':' || ch == 'T' || ch == '.' || ch == 'Z'
  }

  predicate IsDigit(ch: char) {
    '0' <= ch <= '9'
  }

  predicate AllDigits(s: string) {
    forall i :: 0 <= i < |s| ==> IsDigit(s[i])
  }

  /** Every match of `[-:T.Z]` replaced by the empty string. */
  function RemoveIsoPunctuation(s: string): (r: string)
    ensures |r| <= |s|
    ensures forall i :: 0 <= i < |r| ==> !IsIsoPunctuation(r[i])
  {
    if s == [] then []
    else (if IsIsoPunctuation(s[0]) then [] else [s[0]]) + RemoveIsoPunctuation(s[1..])
  }

  /** The `nowFormatted` part of the stored file name. */
  function CompactTimestamp(iso: string): (ts: string)
    ensures |ts| <= 14
    ensures forall i :: 0 <= i < |ts| ==> !IsIsoPunctuation(ts[i])
  {
    var stripped := RemoveIsoPunctuation(iso);
    if |stripped| <= 14 then stripped else stripped[..14]
  }

  lemma {:induction false} RemoveDistributes(a: string, b: string)
    ensures RemoveIsoPunctuation(a + b) == RemoveIsoPunctuation(a) + RemoveIsoPunctuation(b)
  {
    if a == [] {
      assert a + b == b;
    } else {
      assert (a + b)[0] == a[0];
      assert (a + b)[1..] == a[1..] + b;
      RemoveDistributes(a[1..], b);
      var head := if IsIsoPunctuation(a[0]) then [] else [a[0]];
      calc {
        RemoveIsoPunctuation(a + b);
        head + RemoveIsoPunctuation(a[1..] + b);
        head + (RemoveIsoPunctuation(a[1..]) + RemoveIsoPunctuation(b));
        (head + RemoveIsoPunctuation(a[1..])) + RemoveIsoPunctuation(b);
      }
    }
  }

  lemma {:induction false} RemoveKeepsDigits(d: string)
    requires AllDigits(d)
    ensures RemoveIsoPunctuation(d) == d
  {
    if d != [] {
      RemoveKeepsDigits(d[1..]);
    }
  }

  /** The fields of `Date.prototype.toISOString()` for a year between 0 and 9999. */
  datatype IsoInstant = IsoInstant(year: string, month: string, day: string,
                                   hour: string, minute: string, second: string, millis: string)
  {
    predicate WellFormed() {
      && |year| == 4 && |month| == 2 && |day| == 2
      && |hour| == 2 && |minute| == 2 && |second| == 2 && |millis| == 3
      && AllDigits(year) && AllDigits(month) && AllDigits(day)
      && AllDigits(hour) && AllDigits(minute) && AllDigits(second) && AllDigits(millis)
    }

    /** `YYYY-MM-DDTHH:mm:ss.sssZ` */
    function Render(): string {
      year + "-" + month + "-" + day + "T" + hour + ":" + minute + ":" + second + "." + millis + "Z"
    }
  }

  /** Removing the punctuation from `acc`, one separator and one digit field. */
  lemma RemoveSeparatedField(acc: string, sep: string, field: string)
    requires |sep| == 1 && IsIsoPunctuation(sep[0]) && AllDigits(field)
    ensures RemoveIsoPunctuation(acc + sep + field) == RemoveIsoPunctuation(acc) + field
  {
    RemoveDistributes(acc + sep, field);
    RemoveDistributes(acc, sep);
    RemoveKeepsDigits(field);
  }

  /** On an ISO instant the compact timestamp is `YYYYMMDDHHMMSS`: 14 digits, milliseconds dropped. */
  lemma CompactTimestampOfIso(t: IsoInstant)
    requires t.WellFormed()
    ensures CompactTimestamp(t.Render()) == t.year + t.month + t.day + t.hour + t.minute + t.second
    ensures |CompactTimestamp(t.Render())| == 14 && AllDigits(CompactTimestamp(t.Render()))
  {
    RemoveKeepsDigits(t.year);
    var date := t.year + "-" + t.month;
    RemoveSeparatedField(t.year, "-", t.month);
    RemoveSeparatedField(date, "-", t.day);
    date := date + "-" + t.day;
    RemoveSeparatedField(date, "T", t.hour);
    date := date + "T" + t.hour;
    RemoveSeparatedField(date, ":", t.minute);
    date := date + ":" + t.minute;
    RemoveSeparatedField(date, ":", t.second);
    date := date + ":" + t.second;
    RemoveSeparatedField(date, ".", t.millis);
    date := date + "." + t.millis;
    RemoveDistributes(date, "Z");
    assert date + "Z" == t.Render();
    var ts := t.year + t.month + t.day + t.hour + t.minute + t.second;
    assert RemoveIsoPunctuation(t.Render()) == ts + t.millis;
    assert (ts + t.millis)[..14] == ts;
  }

  // ---------------------------------------------------------------------------
  // File name and path
  // ---------------------------------------------------------------------------

  /** `${idClient}_${nowFormatted}.jpg` */
  function FileName(idClient: string, nowFormatted: string): (name: string)
    ensures |name| == |idClient| + |nowFormatted| + 5
    ensures name[..|idClient|] == idClient && name[|idClient|] == '_'
    ensures name[|name| - 4..] == ".jpg"
    ensures name[|idClient| + 1..|name| - 4] == nowFormatted
  {
    idClient + "_" + nowFormatted + ".jpg"
  }

  /**
   * Two requests share a file name only for the same client at the same
   * second: timestamps are equally long (14 digits on every ISO instant).
   */
  lemma FileNameInjective(c1: string, t1: string, c2: string, t2: string)
    requires |t1| == |t2|
    requires FileName(c1, t1) == FileName(c2, t2)
    ensures c1 == c2 && t1 == t2
  {
    var name := FileName(c1, t1);
    assert c1 == name[..|c1|] == c2;
    assert t1 == name[|c1| + 1..|name| - 4] == t2;
  }

  /** `path.join(dir, name)` for a plain file name (no normalisation of `..` or repeated separators). */
  function JoinPath(dir: string, name: string): (path: string)
    ensures |path| >= |name| && path[|path| - |name|..] == name
  {
    if dir == [] then name
    else if dir[|dir| - 1] == '/' then dir + name
    else dir + "/" + name
  }

  // ---------------------------------------------------------------------------
  // The receipt identity `${idClient}-${size}-${width}-${height}`
  // ---------------------------------------------------------------------------

  /** The decimal rendering of a natural number, as a template literal prints it. */
  function NatToString(n: nat): (r: string)
    ensures |r| >= 1 && AllDigits(r)
    ensures n < 10 <==> |r| == 1
  {
    if n < 10 then ["0123456789"[n]]
    else NatToString(n / 10) + ["0123456789"[n % 10]]
  }

  lemma {:induction false} NatToStringInjective(a: nat, b: nat)
    requires NatToString(a) == NatToString(b)
    ensures a == b
  {
    if a >= 10 && b >= 10 {
      var sa, sb := NatToString(a), NatToString(b);
      assert sa[|sa| - 1] == "0123456789"[a % 10];
      assert sb[|sb| - 1] == "0123456789"[b % 10];
      assert NatToString(a / 10) == sa[..|sa| - 1] == sb[..|sb| - 1] == NatToString(b / 10);
      NatToStringInjective(a / 10, b / 10);
    }
  }

  /** The number a string of decimal digits spells, most significant digit first. */
  function DigitsValue(s: string): nat
    requires AllDigits(s)
  {
    if s == [] then 0 else 10 * DigitsValue(s[..|s| - 1]) + (s[|s| - 1] as int - '0' as int)
  }

  /** `String(n)` spells `n` in base 10. */
  lemma {:induction false} NatToStringValue(n: nat)
    ensures DigitsValue(NatToString(n)) == n
  {
    var r := NatToString(n);
    var last := n % 10;
    assert r[|r| - 1] == "0123456789"[last];
    assert "0123456789"[last] as int - '0' as int == last;
    if n >= 10 {
      assert r[..|r| - 1] == NatToString(n / 10);
      NatToStringValue(n / 10);
    }
  }

  /** The index of the last '-' in `s`, or -1. */
  function LastDash(s: string): (r: int)
    ensures -1 <= r < |s|
  {
    if s == [] then -1
    else if s[|s| - 1] == '-' then |s| - 1
    else LastDash(s[..|s| - 1])
  }

  lemma {:induction false} LastDashBeforeDigits(a: string, d: string)
    requires AllDigits(d)
    ensures LastDash(a + "-" + d) == |a|
  {
    if d != [] {
      var s := a + "-" + d;
      assert s[|s| - 1] == d[|d| - 1];
      assert s[..|s| - 1] == a + "-" + d[..|d| - 1];
      LastDashBeforeDigits(a, d[..|d| - 1]);
    }
  }

  /** The text before the last '-' of `a-d` is `a` when `d` is all digits. */
  lemma SplitAtLastDash(a: string, d: string, b: string, e: string)
    requires AllDigits(d) && AllDigits(e)
    requires a + "-" + d == b + "-" + e
    ensures a == b && d == e
  {
    var s := a + "-" + d;
    LastDashBeforeDigits(a, d);
    LastDashBeforeDigits(b, e);
    assert a == s[..|a|] == b;
    assert d == s[|a| + 1..] == e;
  }

  /** `${idClient}-${size}-${width}-${height}` */
  function ReceiptIdentity(idClient: string, size: nat, width: nat, height: nat): (id: string)
    ensures |id| > |idClient| && id[..|idClient|] == idClient
  {
    idClient + "-" + NatToString(size) + "-" + NatToString(width) + "-" + NatToString(height)
  }

  /**
   * The identity determines all four of its parts: the same client, size and
   * dimensions give the same identity, and any difference, in particular a
   * different client, gives a different one.
   */
  lemma ReceiptIdentityInjective(c1: string, s1: nat, w1: nat, h1: nat,
                                 c2: string, s2: nat, w2: nat, h2: nat)
    requires ReceiptIdentity(c1, s1, w1, h1) == ReceiptIdentity(c2, s2, w2, h2)
    ensures c1 == c2 && s1 == s2 && w1 == w2 && h1 == h2
  {
    SplitAtLastDash(c1 + "-" + NatToString(s1) + "-" + NatToString(w1), NatToString(h1),
                    c2 + "-" + NatToString(s2) + "-" + NatToString(w2), NatToString(h2));
    SplitAtLastDash(c1 + "-" + NatToString(s1), NatToString(w1),
                    c2 + "-" + NatToString(s2), NatToString(w2));
    SplitAtLastDash(c1, NatToString(s1), c2, NatToString(s2));
    NatToStringInjective(s1, s2);
    NatToStringInjective(w1, w2);
    NatToStringInjective(h1, h2);
  }

  // ---------------------------------------------------------------------------
  // String.prototype.length
  // ---------------------------------------------------------------------------

  /** A character outside the Basic Multilingual Plane, stored in UTF-16 as a surrogate pair. */
  predicate IsAstral(ch: char) {
    ch as int >= 0x1_0000
  }

  /** `s.length` in JavaScript: the number of UTF-16 code units, two for each astral character. */
  function Utf16Length(s: string): (n: nat)
    ensures |s| <= n <= 2 * |s|
    ensures n == |s| <==> forall i :: 0 <= i < |s| ==> !IsAstral(s[i])
  {
    if s == [] then 0 else (if IsAstral(s[0]) then 2 else 1) + Utf16Length(s[1..])
  }

  /** Code units add up over concatenation. */
  lemma {:induction false} Utf16LengthOfConcat(a: string, b: string)
    ensures Utf16Length(a + b) == Utf16Length(a) + Utf16Length(b)
  {
    if a == [] {
      assert a + b == b;
    } else {
      assert (a + b)[1..] == a[1..] + b;
      Utf16LengthOfConcat(a[1..], b);
    }
  }

  /** Appending one character adds one code unit, or two for an astral one. */
  lemma AppendCharLength(s: string, ch: char)
    ensures Utf16Length(s + [ch]) == Utf16Length(s) + if IsAstral(ch) then 2 else 1
  {
    Utf16LengthOfConcat(s, [ch]);
  }
}
