/**
 * The string and byte-buffer logic of the DAP2 client connection: splitting a dataset URL into
 * the base URL and its sticky constraint expression (projection and selection), merging the
 * sticky expression with a per-request one, and scanning a DataDDS response for the marker
 * that separates the textual DDS from the binary data.
 */
module DConnect {
  import opened Wrappers
  import opened Octets

  // ---------------------------------------------------------------------------
  // Strings

  /** `s.indexOf(c)`. */
  function IndexOf(s: string, c: char): (i: int)
    ensures -1 <= i < |s|
    ensures i == -1 <==> c !in s
    ensures 0 <= i ==> s[i] == c && c !in s[..i]
  {
    if |s| == 0 then -1
    else if s[0] == c then 0
    else
      var j := IndexOf(s[1..], c);
      assert 0 <= j ==> s[..j + 1] == [s[0]] + s[1..][..j];
      if j < 0 then -1 else j + 1
  }

  /** `s.startsWith(c)`, which for a one-character prefix is also `s.indexOf(c) == 0`. */
  predicate StartsWith(s: string, c: char)
  {
    |s| > 0 && s[0] == c
  }

  /** A constraint expression cut at its first '&': the projection, then the selection. */
  datatype CeParts = CeParts(proj: string, sel: string)

  /** The split both the constructor and `getCompleteCE` make at `indexOf('&')`. */
  function SplitSelection(expr: string): (r: CeParts)
    ensures r.proj + r.sel == expr
    ensures '&' !in r.proj
    ensures r.sel == "" || r.sel[0] == '&'
  {
    var i := IndexOf(expr, '&');
    assert 0 <= i ==> expr == expr[..i] + expr[i..];
    if i < 0 then CeParts(expr, "") else CeParts(expr[..i], expr[i..])
  }

  /** The split is the only way to write `expr` as an '&'-free projection followed by a selection. */
  lemma SplitSelectionUnique(expr: string, proj: string, sel: string)
    requires proj + sel == expr && '&' !in proj && (sel == "" || sel[0] == '&')
    ensures SplitSelection(expr) == CeParts(proj, sel)
  {
    var i := IndexOf(expr, '&');
    if sel == "" {
      assert expr == proj;
    } else {
      assert expr[|proj|] == '&';
      assert expr[..|proj|] == proj;
      if i < |proj| {
        assert false;
      }
      if i > |proj| {
        assert false;
      }
      assert expr[i..] == sel;
    }
  }

  /** A dataset URL cut into the URL proper and the projection and selection of its expression. */
  datatype UrlParts = UrlParts(base: string, proj: string, sel: string)

  /** The split `DConnect2(String, boolean)` makes: at the first '?', then at the first '&'. */
  function SplitUrl(url: string): (r: UrlParts)
    ensures '?' !in r.base
    ensures '&' !in r.proj
    ensures r.sel == "" || r.sel[0] == '&'
    ensures '?' in url ==> r.base + "?" + (r.proj + r.sel) == url
    ensures '?' !in url ==> r.base == url && r.proj == "" && r.sel == ""
  {
    var q := IndexOf(url, '?');
    if q < 0 then UrlParts(url, "", "")
    else
      var e := SplitSelection(url[q + 1..]);
      CutAt(url, q, e.proj, e.sel);
      UrlParts(url[..q], e.proj, e.sel)
  }

  /** Only the separating '?' is dropped: a second one stays at the head of the projection. */
  lemma SecondQuestionStaysInProjection()
    ensures SplitUrl("h??a") == UrlParts("h", "?a", "")
  {
    var url := "h??a";
    assert url[0] != '?' && url[1] == '?';
    assert IndexOf(url, '?') == 1;
    assert url[2..] == "?a" && url[..1] == "h";
    SplitSelectionUnique("?a", "?a", "");
  }

  /** `s` is the part before position `q`, the character at `q`, and the part after it. */
  lemma CutAt(s: string, q: int, a: string, b: string)
    requires 0 <= q < |s| && a + b == s[q + 1..]
    ensures s[..q] + [s[q]] + (a + b) == s
  {
    assert s == s[..q] + [s[q]] + s[q + 1..];
  }

  lemma Assoc(a: string, b: string, c: string)
    ensures a + b + c == a + (b + c)
  {
  }

  /** One leading '?' removed, as `getCompleteCE` does. */
  function StripQuestion(s: string): (r: string)
    ensures StartsWith(s, '?') ==> "?" + r == s
    ensures !StartsWith(s, '?') ==> r == s
  {
    if StartsWith(s, '?') then s[1..] else s
  }

  /** A non-empty selection gets a leading '&' unless it has one; an empty one adds nothing. */
  function AmpPrefixed(s: string): (r: string)
    ensures s == "" ==> r == ""
    ensures s != "" ==> |r| > 0 && r[0] == '&' && (r == s || r == "&" + s)
    ensures StartsWith(s, '&') ==> r == s
    ensures s != "" && !StartsWith(s, '&') ==> r == "&" + s
  {
    if s == "" then "" else if StartsWith(s, '&') then s else "&" + s
  }

  /** The sticky projection, then the local one, joined by ',' unless either side makes it unnecessary. */
  function JoinProjections(proj: string, localProj: string): (r: string)
    ensures localProj == "" ==> r == proj
    ensures proj == "" ==> r == localProj
    ensures proj != "" && localProj != "" ==>
      r == proj + (if StartsWith(localProj, ',') then "" else ",") + localProj
  {
    if localProj == "" then proj
    else if proj != "" && !StartsWith(localProj, ',') then proj + "," + localProj
    else proj + localProj
  }

  /** The merged expression without its '?': projections first, then both selections. */
  function MergeCE(proj: string, sel: string, localProj: string, localSel: string): string
  {
    JoinProjections(proj, localProj) + AmpPrefixed(sel) + AmpPrefixed(localSel)
  }

  /**
   * `getCompleteCE(String)` of a connection whose sticky expression is `proj` and `sel`:
   * "" for a null expression, otherwise the merge, with a leading '?' when it is not empty.
   */
  function CompleteCE(proj: string, sel: string, ce: Option<string>): (r: string)
    ensures ce.None? ==> r == ""
    ensures r == "" || r[0] == '?'
  {
    match ce
    case None => ""
    case Some(c) =>
      var local := SplitSelection(StripQuestion(c));
      var merged := MergeCE(proj, sel, local.proj, local.sel);
      if merged == "" then "" else "?" + merged
  }

  /** `getCompleteCE("?" + x)` equals `getCompleteCE(x)` when `x` does not itself begin with '?'. */
  lemma CompleteCEIgnoresLeadingQuestion(proj: string, sel: string, x: string)
    requires !StartsWith(x, '?')
    ensures CompleteCE(proj, sel, Some("?" + x)) == CompleteCE(proj, sel, Some(x))
  {
    assert ("?" + x)[1..] == x;
  }

  /** Only one '?' is removed, so the equality above fails for `x` = "?a". */
  lemma CompleteCEStripsOnlyOneQuestion()
    ensures CompleteCE("", "", Some("??a")) == "??a"
    ensures CompleteCE("", "", Some("?a")) == "?a"
  {
    assert "??a"[1..] == "?a";
    assert "?a"[1..] == "a";
    assert SplitSelection("?a") == CeParts("?a", "") by {
      SplitSelectionUnique("?a", "?a", "");
    }
    assert SplitSelection("a") == CeParts("a", "") by {
      SplitSelectionUnique("a", "a", "");
    }
  }

  /** With no sticky expression the complete expression is the local one, behind a single '?'. */
  lemma CompleteCEWithoutSticky(x: string)
    ensures var e := StripQuestion(x);
      CompleteCE("", "", Some(x)) == if e == "" then "" else "?" + e
  {
    var local := SplitSelection(StripQuestion(x));
    assert AmpPrefixed(local.sel) == local.sel;
    assert JoinProjections("", local.proj) + AmpPrefixed("") == local.proj;
    assert MergeCE("", "", local.proj, local.sel) == local.proj + local.sel;
  }

  /** Joining projections adds at most a ',', so a character other than ',' absent from both stays absent. */
  lemma JoinProjectionsFree(proj: string, localProj: string, c: char)
    requires c != ',' && c !in proj && c !in localProj
    ensures c !in JoinProjections(proj, localProj)
  {
    var r := JoinProjections(proj, localProj);
    if localProj != "" && proj != "" && !StartsWith(localProj, ',') {
      assert r == proj + ([','] + localProj);
    }
  }

  /**
   * The merged expression cuts back into the merged projection (sticky, then local) and the
   * merged selection (sticky, then local), so its parts keep their order.
   */
  lemma MergeCEParts(proj: string, sel: string, x: string)
    requires '&' !in proj
    ensures var local := SplitSelection(StripQuestion(x));
      SplitSelection(MergeCE(proj, sel, local.proj, local.sel)) ==
      CeParts(JoinProjections(proj, local.proj), AmpPrefixed(sel) + AmpPrefixed(local.sel))
  {
    var local := SplitSelection(StripQuestion(x));
    var p := JoinProjections(proj, local.proj);
    var s := AmpPrefixed(sel) + AmpPrefixed(local.sel);
    JoinProjectionsFree(proj, local.proj, '&');
    assert s == "" || s[0] == '&';
    Assoc(p, AmpPrefixed(sel), AmpPrefixed(local.sel));
    SplitSelectionUnique(MergeCE(proj, sel, local.proj, local.sel), p, s);
  }

  /** An empty local expression adds nothing: the sticky expression comes back behind a '?'. */
  lemma CompleteCEOfEmpty(proj: string, sel: string)
    requires sel == "" || sel[0] == '&'
    requires proj + sel != ""
    ensures CompleteCE(proj, sel, Some("")) == "?" + (proj + sel)
  {
    assert StripQuestion("") == "";
    assert SplitSelection("") == CeParts("", "");
    assert AmpPrefixed(sel) == sel;
    assert AmpPrefixed("") == "";
    assert JoinProjections(proj, "") == proj;
    assert proj + sel + "" == proj + sel;
  }

  /**
   * A request without its own expression gets back the sticky one: the URL of a connection
   * built from a URL with a non-empty expression, followed by `getCompleteCE("")`, is that URL.
   */
  lemma StickyRoundTrip(url: string)
    requires '?' in url
    requires SplitUrl(url).proj + SplitUrl(url).sel != ""
    ensures var u := SplitUrl(url); u.base + CompleteCE(u.proj, u.sel, Some("")) == url
  {
    var u := SplitUrl(url);
    CompleteCEOfEmpty(u.proj, u.sel);
    Assoc(u.base, "?", u.proj + u.sel);
  }

  /** The expression `getCompleteCE(proj, sel)` hands on: `proj` without one '?', then `sel` behind '&'. */
  function JoinParts(proj: string, sel: Option<string>): string
  {
    StripQuestion(proj) + (if sel.Some? then AmpPrefixed(sel.value) else "")
  }

  /** An empty selection is treated as a null one. */
  lemma EmptySelectionIsNull(proj: string)
    ensures JoinParts(proj, Some("")) == JoinParts(proj, None)
  {
  }

  /** Without a selection, the two-argument form agrees with the one-argument form unless `proj` starts with "??". */
  lemma PartsAgreeWithSingle(projString: string, selString: string, proj: string)
    requires !StartsWith(StripQuestion(proj), '?')
    ensures CompleteCE(projString, selString, Some(JoinParts(proj, None))) ==
            CompleteCE(projString, selString, Some(proj))
  {
    assert JoinParts(proj, None) == StripQuestion(proj);
  }

  /** The local selection the two-argument form produces is `sel` with a leading '&'. */
  lemma PartsSelection(proj: string, sel: string)
    requires '&' !in proj
    ensures SplitSelection(JoinParts(proj, Some(sel))) == CeParts(StripQuestion(proj), AmpPrefixed(sel))
  {
    assert '&' !in StripQuestion(proj) by {
      assert StartsWith(proj, '?') ==> proj == "?" + StripQuestion(proj);
    }
    SplitSelectionUnique(JoinParts(proj, Some(sel)), StripQuestion(proj), AmpPrefixed(sel));
  }

  /** The first half of `getCompleteCE(String)`: the local expression without its '?', cut at its first '&'. */
  method LocalParts(ce: string) returns (localProjString: string, localSelString: string)
    ensures localProjString == SplitSelection(StripQuestion(ce)).proj
    ensures localSelString == SplitSelection(StripQuestion(ce)).sel
  {
    var c := ce;
    if StartsWith(c, '?') {
      c := c[1..];
    }
    var selIndex := IndexOf(c, '&');
    if selIndex == 0 {
      localProjString := "";
      localSelString := c;
    } else if selIndex > 0 {
      localSelString := c[selIndex..];
      localProjString := c[..selIndex];
    } else {
      localProjString := c;
      localSelString := "";
    }
  }

  // ---------------------------------------------------------------------------
  // The connection's constraint-expression state

  class DConnect2 {
    /** The dataset URL without its constraint expression. */
    var urlString: string
    /** The projection of the sticky expression, without the '?'. */
    var projString: string
    /** The selection of the sticky expression: empty, or starting with '&'. */
    var selString: string
    var acceptCompress: bool

    /** `DConnect2(String, boolean)`, up to the check of the URL's protocol. */
    constructor (urlString: string, acceptCompress: bool)
      ensures UrlParts(this.urlString, projString, selString) == SplitUrl(urlString)
      ensures this.acceptCompress == acceptCompress
      ensures '?' in urlString ==> URL() + "?" + CE() == urlString
      ensures '?' !in urlString ==> URL() == urlString && CE() == ""
      ensures '?' !in URL() && '&' !in projString && (selString == "" || selString[0] == '&')
    {
      var base, proj, sel := urlString, "", "";
      var ceIndex := IndexOf(urlString, '?');
      if ceIndex >= 0 {
        base := urlString[..ceIndex];
        var expr := urlString[ceIndex + 1..];
        var selIndex := IndexOf(expr, '&');
        if selIndex >= 0 {
          proj := expr[..selIndex];
          sel := expr[selIndex..];
        } else {
          proj := expr;
        }
        assert CeParts(proj, sel) == SplitSelection(expr);
        assert UrlParts(base, proj, sel) == SplitUrl(urlString);
      } else {
        assert UrlParts(base, proj, sel) == SplitUrl(urlString);
      }
      this.urlString, projString, selString := base, proj, sel;
      this.acceptCompress := acceptCompress;
      new;
      assert URL() == base && CE() == proj + sel;
    }

    /** The sticky constraint expression. */
    function CE(): string
      reads this
    {
      projString + selString
    }

    /** The URL given to the constructor, without its constraint expression. */
    function URL(): string
      reads this
    {
      urlString
    }

    /** `getCompleteCE(String CE)`, with null as `None`. */
    method GetCompleteCE(ce: Option<string>) returns (r: string)
      ensures r == CompleteCE(projString, selString, ce)
    {
      if ce.None? {
        return "";
      }
      var localProjString, localSelString := LocalParts(ce.value);
      r := projString;
      if localProjString != "" {
        if r != "" && !StartsWith(localProjString, ',') {
          r := r + ",";
        }
        r := r + localProjString;
      }
      assert r == JoinProjections(projString, localProjString);
      ghost var joined := r;
      if selString != "" {
        if !StartsWith(selString, '&') {
          r := r + "&";
        }
        r := r + selString;
      }
      assert r == joined + AmpPrefixed(selString) by {
        if selString != "" && !StartsWith(selString, '&') {
          assert joined + "&" + selString == joined + ("&" + selString);
        }
      }
      joined := r;
      if localSelString != "" {
        if !StartsWith(localSelString, '&') {
          r := r + "&";
        }
        r := r + localSelString;
      }
      assert r == joined + AmpPrefixed(localSelString);
      assert r == MergeCE(projString, selString, localProjString, localSelString);
      assert CompleteCE(projString, selString, ce) == if r == "" then "" else "?" + r;
      if |r| > 0 {
        r := "?" + r;
      }
    }

    /** `getCompleteCE(String proj, String sel)`, with a null `sel` as `None`; `proj` is dereferenced, so never null. */
    method GetCompleteCEParts(proj: string, sel: Option<string>) returns (r: string)
      ensures r == CompleteCE(projString, selString, Some(JoinParts(proj, sel)))
    {
      var s := sel;
      if s.Some? && |s.value| == 0 {
        s := None;
      }
      var buf := "";
      if StartsWith(proj, '?') {
        buf := buf + proj[1..];
      } else {
        buf := buf + proj;
      }
      assert buf == StripQuestion(proj);
      if s.Some? {
        if StartsWith(s.value, '&') {
          buf := buf + s.value;
        } else {
          buf := buf + "&";
          buf := buf + s.value;
          Assoc(StripQuestion(proj), "&", s.value);
        }
      }
      assert buf == JoinParts(proj, sel);
      r := GetCompleteCE(Some(buf));
    }
  }

  // ---------------------------------------------------------------------------
  // The DataDDS marker

  /** "\nData:\n" in UTF-8. */
  const Tag1: seq<Octet> := [10, 68, 97, 116, 97, 58, 10]
  /** "\nData:\r\n" in UTF-8. */
  const Tag2: seq<Octet> := [10, 68, 97, 116, 97, 58, 13, 10]

  /** The first `pos` octets of `s` end with `tag`. */
  predicate EndsWithAt(s: seq<Octet>, pos: int, tag: seq<Octet>)
  {
    |tag| <= pos <= |s| && s[pos - |tag|..pos] == tag
  }

  /** One of the two markers ends just before position `k`. */
  predicate MarkerEndsAt(s: seq<Octet>, k: int)
  {
    EndsWithAt(s, k, Tag1) || EndsWithAt(s, k, Tag2)
  }

  /** The length of the marker ending at `k`, the first tag taking precedence. */
  function MarkerLength(s: seq<Octet>, k: int): (n: nat)
    requires MarkerEndsAt(s, k)
    ensures n == 7 || n == 8
    ensures n <= k
  {
    if EndsWithAt(s, k, Tag1) then |Tag1| else |Tag2|
  }

  /** The two markers never end at the same position: one has ':' where the other has '\r'. */
  lemma TagsNeverEndTogether(s: seq<Octet>, k: int)
    ensures !(EndsWithAt(s, k, Tag1) && EndsWithAt(s, k, Tag2))
  {
    assert |Tag2| <= k <= |s| ==> s[k - |Tag1|..k][5] == s[k - 2] == s[k - |Tag2|..k][6];
  }

  /** Every marker ends with '\n', which is why the scan only looks after a newline. */
  lemma NoMarkerWithoutNewline(s: seq<Octet>, k: int)
    requires 1 <= k <= |s| && s[k - 1] != 10
    ensures !MarkerEndsAt(s, k)
  {
    assert |Tag1| <= k ==> s[k - |Tag1|..k][6] == s[k - 1];
    assert |Tag2| <= k ==> s[k - |Tag2|..k][7] == s[k - 1];
  }

  /**
   * The marker that ends first also starts first: no occurrence of either tag begins before
   * the marker ending at `c`, the first position where one ends.
   */
  lemma FirstEndingMarkerStartsFirst(s: seq<Octet>, c: int)
    requires MarkerEndsAt(s, c) && forall k :: 0 <= k < c ==> !MarkerEndsAt(s, k)
    ensures forall e :: EndsWithAt(s, e, Tag1) ==> e - |Tag1| >= c - MarkerLength(s, c)
    ensures forall e :: EndsWithAt(s, e, Tag2) ==> e - |Tag2| >= c - MarkerLength(s, c)
  {
    TagsNeverEndTogether(s, c);
    forall e | EndsWithAt(s, e, Tag1)
      ensures e - |Tag1| >= c - MarkerLength(s, c)
    {
      assert MarkerEndsAt(s, e);
    }
    forall e | EndsWithAt(s, e, Tag2)
      ensures e - |Tag2| >= c - MarkerLength(s, c)
    {
      assert MarkerEndsAt(s, e);
    }
  }

  /** Prefixes that agree agree on which tags end within them. */
  lemma EndsWithOnPrefix(a: seq<Octet>, b: seq<Octet>, k: int, tag: seq<Octet>)
    requires 0 <= k <= |a| && k <= |b| && a[..k] == b[..k]
    ensures EndsWithAt(a, k, tag) <==> EndsWithAt(b, k, tag)
  {
    if |tag| <= k {
      assert a[k - |tag|..k] == a[..k][k - |tag|..];
      assert b[k - |tag|..k] == b[..k][k - |tag|..];
    }
  }

  /** Prefixes that agree agree on whether a marker ends within them, and on its length. */
  lemma MarkerOnPrefix(a: seq<Octet>, b: seq<Octet>, k: int)
    requires 0 <= k <= |a| && k <= |b| && a[..k] == b[..k]
    ensures MarkerEndsAt(a, k) <==> MarkerEndsAt(b, k)
    ensures MarkerEndsAt(a, k) ==> MarkerLength(a, k) == MarkerLength(b, k)
  {
    EndsWithOnPrefix(a, b, k, Tag1);
    EndsWithOnPrefix(a, b, k, Tag2);
  }

  /** No marker ends at any position before `n`. */
  predicate NoMarkerBefore(s: seq<Octet>, n: int)
  {
    forall k :: 0 <= k < n ==> !MarkerEndsAt(s, k)
  }

  lemma ExtendNoMarker(s: seq<Octet>, n: int)
    requires NoMarkerBefore(s, n) && !MarkerEndsAt(s, n)
    ensures NoMarkerBefore(s, n + 1)
  {
  }

  /** Agreement on the first `i` octets is agreement on the first `j <= i`. */
  lemma PrefixOfPrefix(a: seq<Octet>, b: seq<Octet>, i: int, j: int)
    requires 0 <= j <= i <= |a| && i <= |b| && a[..i] == b[..i]
    ensures a[..j] == b[..j]
  {
    assert a[..j] == a[..i][..j];
    assert b[..j] == b[..i][..j];
  }

  datatype CaptureError = NoDataMarker

  /** `endswith(tag, pos, text)`: the first `pos` octets of `text` end with `tag`. */
  method EndsWith(tag: seq<Octet>, pos: int, text: array<Octet>) returns (b: bool)
    requires pos <= text.Length
    ensures b <==> EndsWithAt(text[..], pos, tag)
  {
    var taglen := |tag|;
    if pos < taglen {
      return false;
    }
    var i, j := pos - taglen, 0;
    while i < pos
      invariant j == i - (pos - taglen) && 0 <= j <= taglen
      invariant text[pos - taglen..i] == tag[..j]
    {
      if text[i] != tag[j] {
        assert text[..][pos - taglen..pos][j] != tag[j];
        return false;
      }
      assert text[pos - taglen..i + 1] == text[pos - taglen..i] + [text[i]];
      assert tag[..j + 1] == tag[..j] + [tag[j]];
      i, j := i + 1, j + 1;
    }
    assert tag[..j] == tag;
    assert text[..][pos - taglen..pos] == text[pos - taglen..pos];
    return true;
  }

  /** The `while (newlen < n) newlen++` loop of `need`: the larger of `start` and `n`. */
  method Grow(start: int, n: int) returns (newlen: int)
    ensures newlen == if start < n then n else start
  {
    newlen := start;
    while newlen < n
      invariant newlen <= n || newlen == start
      invariant start < n ==> newlen <= n
      decreases n - newlen
    {
      newlen := newlen + 1;
    }
  }

  /**
   * `need(n, pos, len, text)`: `text` itself when `n` octets are free after `pos`, otherwise a
   * new zeroed buffer of `2 * len + n` octets starting with the first `len` octets of `text`.
   */
  method Need(n: int, pos: int, len: int, text: array<Octet>) returns (r: array<Octet>)
    requires len - pos < n ==> 0 <= len <= text.Length && 0 <= n
    ensures len - pos >= n ==> r == text
    ensures len - pos < n ==> fresh(r) && r.Length == 2 * len + n && r[..len] == text[..len]
    ensures len - pos < n ==> forall i :: len <= i < r.Length ==> r[i] == 0
    ensures len - pos < n && pos <= len ==> r.Length - pos >= n
  {
    if len - pos >= n {
      return text;
    }
    var newlen := Grow(len * 2 + n, n);
    r := new Octet[newlen](_ => 0);
    forall i | 0 <= i < len {
      r[i] := text[i];
    }
  }

  /** `text = need(1, pos, len, text); text[pos++] = b`: the buffer, possibly a new one, with `b` stored at `pos`. */
  method Put(text: array<Octet>, pos: int, b: Octet) returns (t: array<Octet>)
    requires 0 <= pos <= text.Length
    modifies text
    ensures t == text || fresh(t)
    ensures pos < t.Length && t[..pos + 1] == old(text[..pos]) + [b]
  {
    t := Need(1, pos, text.Length, text);
    t[pos] := b;
    assert t[..pos + 1] == t[..pos] + [b];
  }

  /**
   * The test made after storing octet `b` at `pos - 1`: only after a '\n' are the tags compared,
   * the first before the second. The length of the marker found, or 0.
   */
  method FindMarker(b: Octet, pos: int, text: array<Octet>) returns (taglen: int)
    requires 1 <= pos <= text.Length && text[pos - 1] == b
    ensures taglen == if MarkerEndsAt(text[..], pos) then MarkerLength(text[..], pos) else 0
  {
    if b == 10 {
      var t1 := EndsWith(Tag1, pos, text);
      if t1 {
        return |Tag1|;
      }
      var t2 := EndsWith(Tag2, pos, text);
      if t2 {
        return |Tag2|;
      }
    } else {
      NoMarkerWithoutNewline(text[..], pos);
    }
    return 0;
  }

  /**
   * One pass of the read loop: octet `i` of the stream is stored at `pos`, then the tags are
   * tested; the length of the marker that now ends the buffer, or 0.
   */
  method Step(stream: seq<Octet>, i: nat, text: array<Octet>, pos: nat) returns (t: array<Octet>, taglen: int)
    requires i < |stream| && pos == i <= text.Length && text[..pos] == stream[..i]
    modifies text
    ensures t == text || fresh(t)
    ensures pos < t.Length && t[..pos + 1] == stream[..i + 1]
    ensures taglen == if MarkerEndsAt(stream, i + 1) then MarkerLength(stream, i + 1) else 0
  {
    var b := stream[i];
    t := Put(text, pos, b);
    assert stream[..i + 1] == stream[..i] + [b];
    MarkerOnPrefix(t[..], stream, pos + 1);
    taglen := FindMarker(b, pos + 1, t);
  }

  /**
   * The read loop of `captureDataDDS`: octets are stored one by one until a marker ends at
   * position `i` or the stream runs out (`eof`). On a marker `pos` is the position where it starts.
   */
  method ScanForMarker(stream: seq<Octet>) returns (eof: bool, i: nat, text: array<Octet>, pos: nat)
    ensures i <= |stream| && pos <= i && pos <= text.Length && text[..pos] == stream[..pos]
    ensures NoMarkerBefore(stream, i)
    ensures eof ==> i == |stream| && !MarkerEndsAt(stream, i)
    ensures !eof ==> MarkerEndsAt(stream, i) && pos == i - MarkerLength(stream, i)
  {
    text := new Octet[4096](_ => 0);
    pos := 0;
    var len := text.Length;
    eof := true;
    i := 0;
    while i < |stream|
      invariant 0 <= i <= |stream| && len == text.Length && pos == i <= len && eof
      invariant text[..pos] == stream[..i]
      invariant NoMarkerBefore(stream, i + 1)
      invariant fresh(text)
    {
      var taglen;
      text, taglen := Step(stream, i, text, pos);
      if taglen == 0 {
        ExtendNoMarker(stream, i + 1);
      }
      i, pos := i + 1, pos + 1;
      len := text.Length;
      if taglen > 0 {
        pos := pos - taglen;
        PrefixOfPrefix(text[..], stream, i, pos);
        eof := false;
        break;
      }
    }
  }

  /**
   * `captureDataDDS(is)` over the octets of the stream: the octets before the first marker,
   * the marker excluded, and how many octets were read; or the error when the stream ends first.
   * The octets are returned undecoded.
   */
  method CaptureDataDds(stream: seq<Octet>) returns (r: Result<seq<Octet>, CaptureError>, consumed: nat)
    ensures consumed <= |stream|
    ensures r.Ok? <==> exists k :: 0 <= k <= |stream| && MarkerEndsAt(stream, k)
    ensures r.Ok? ==> MarkerEndsAt(stream, consumed)
    ensures r.Ok? ==> forall k :: 0 <= k < consumed ==> !MarkerEndsAt(stream, k)
    ensures r.Ok? ==> r.value == stream[..consumed - MarkerLength(stream, consumed)]
    ensures r.Ok? ==> forall e :: EndsWithAt(stream, e, Tag1) ==> e - |Tag1| >= |r.value|
    ensures r.Ok? ==> forall e :: EndsWithAt(stream, e, Tag2) ==> e - |Tag2| >= |r.value|
    ensures r.Err? ==> consumed == |stream| && r.error == NoDataMarker
  {
    var eof, i, text, pos := ScanForMarker(stream);
    assert NoMarkerBefore(stream, i);
    if eof {
      assert forall k :: 0 <= k <= |stream| ==> !MarkerEndsAt(stream, k);
      return Err(NoDataMarker), |stream|;
    }
    FirstEndingMarkerStartsFirst(stream, i);
    return Ok(text[..pos]), i;
  }

}
