/** The image-uploader node (src/components/ImageUploader.js): its attribute defaults, the
    parsing of width and height from a `style` attribute with the regular expressions
    `/width:\s*([^;]+);?/` and `/height:\s*([^;]+);?/`, and the rendering of width and
    height into a `style` attribute. */
module ImageUploader {
  import opened Js
  import opened Wrappers

  /** The node's attributes; `src` is `null` until an image is uploaded. */
  datatype Attrs = Attrs(src: Option<string>, width: string, height: string)

  /** `addAttributes`: the defaults, no image and the width and height that parsing gives
      a node without a style. */
  function Defaults(): (a: Attrs)
    ensures a.src.None? && GetAttrs(None) == Parsed(a.width, a.height)
  {
    Attrs(None, "100%", "auto")
  }

  /** What `getAttrs` returns: width and height, nothing else. */
  datatype Parsed = Parsed(width: string, height: string)

  predicate AllSpace(s: string)
  {
    forall i :: 0 <= i < |s| ==> IsSpace(s[i])
  }

  /** The length of the run of `\s` characters starting at `i`. */
  function SpaceRun(s: string, i: nat): (n: nat)
    requires i <= |s|
    ensures i + n <= |s| && AllSpace(s[i..i + n]) && (i + n == |s| || !IsSpace(s[i + n]))
    decreases |s| - i
  {
    if i < |s| && IsSpace(s[i]) then 1 + SpaceRun(s, i + 1) else 0
  }

  /** The length of the run of characters other than ';' starting at `i`. */
  function ValueRun(s: string, i: nat): (n: nat)
    requires i <= |s|
    ensures i + n <= |s| && ';' !in s[i..i + n] && (i + n == |s| || s[i + n] == ';')
    decreases |s| - i
  {
    if i < |s| && s[i] != ';' then 1 + ValueRun(s, i + 1) else 0
  }

  /** The pattern `key:\s*([^;]+)` tried at index `p`: `\s*` takes the longest run of
      white space, and `[^;]+` the longest run of other characters after it; when that run
      is empty but white space was taken, backtracking leaves the last white-space
      character to the group. The result is the group's text. The pattern matches exactly
      when `key:` is there and is followed by a character other than ';'. */
  function MatchAt(s: string, key: string, p: nat): (r: Option<string>)
    requires p <= |s|
    ensures r.Some? <==> OccursAt(s, key + ":", p) && p + |key| + 1 < |s| && s[p + |key| + 1] != ';'
    ensures r.Some? ==> r.value != "" && ';' !in r.value
  {
    var start := p + |key| + 1;
    if !OccursAt(s, key + ":", p) then None
    else
      var w := SpaceRun(s, start);
      var v := ValueRun(s, start + w);
      if v > 0 then Some(s[start + w..start + w + v])
      else if w > 0 then Some(s[start + w - 1..start + w])
      else None
  }

  /** `s.match(/key:\s*([^;]+);?/)` searching from index `p`: the group of the leftmost
      position at which the pattern matches. */
  function FirstMatch(s: string, key: string, p: nat): Option<string>
    requires p <= |s|
    decreases |s| - p
  {
    var here := MatchAt(s, key, p);
    if here.Some? then here
    else if p == |s| then None
    else FirstMatch(s, key, p + 1)
  }

  function Match(s: string, key: string): Option<string>
  {
    FirstMatch(s, key, 0)
  }

  /** Positions where the pattern does not match are skipped. */
  lemma {:induction false} SkipToMatch(s: string, key: string, p: nat, q: nat)
    requires p <= q <= |s|
    requires forall i :: p <= i < q ==> MatchAt(s, key, i).None?
    ensures FirstMatch(s, key, p) == FirstMatch(s, key, q)
    decreases q - p
  {
    if p < q {
      SkipToMatch(s, key, p + 1, q);
    }
  }

  /** The match is the one at the leftmost position where the pattern matches. */
  lemma LeftmostMatch(s: string, key: string, q: nat)
    requires q <= |s| && MatchAt(s, key, q).Some?
    requires forall i :: 0 <= i < q ==> MatchAt(s, key, i).None?
    ensures Match(s, key) == MatchAt(s, key, q)
  {
    SkipToMatch(s, key, 0, q);
  }

  /** Where the pattern matches nowhere, there is no match. */
  lemma NoMatchAnywhere(s: string, key: string)
    requires forall i :: 0 <= i <= |s| ==> MatchAt(s, key, i).None?
    ensures Match(s, key) == None
  {
    SkipToMatch(s, key, 0, |s|);
  }

  /** After `key:` and any run of white space, the group is the value up to the next ';'
      or the end of the string, when that value does not start with white space. */
  lemma ReadAfterKey(s: string, key: string, p: nat, j: nat, v: string)
    requires OccursAt(s, key + ":", p) && p + |key| + 1 <= j <= |s|
    requires AllSpace(s[p + |key| + 1..j])
    requires v != "" && ';' !in v && !IsSpace(v[0])
    requires j + |v| <= |s| && s[j..j + |v|] == v && (j + |v| == |s| || s[j + |v|] == ';')
    ensures MatchAt(s, key, p) == Some(v)
  {
    var start := p + |key| + 1;
    assert s[j] == v[0];
    SpaceRunOver(s, start, j);
    ValueRunOver(s, j, v);
    MatchAfterSpace(s, key, p);
  }

  /** Where `key:` occurs and a value follows the white space after it, the group is that
      value. */
  lemma MatchAfterSpace(s: string, key: string, p: nat)
    requires OccursAt(s, key + ":", p)
    requires ValueRun(s, p + |key| + 1 + SpaceRun(s, p + |key| + 1)) > 0
    ensures var j := p + |key| + 1 + SpaceRun(s, p + |key| + 1);
            MatchAt(s, key, p) == Some(s[j..j + ValueRun(s, j)])
  {
  }

  lemma {:induction false} SpaceRunOver(s: string, i: nat, j: nat)
    requires i <= j < |s| && AllSpace(s[i..j]) && !IsSpace(s[j])
    ensures SpaceRun(s, i) == j - i
    decreases j - i
  {
    if i < j {
      assert IsSpace(s[i..j][0]);
      assert s[i + 1..j] == s[i..j][1..];
      SpaceRunOver(s, i + 1, j);
    }
  }

  /** A value followed by ';' or the end is read up to there. */
  lemma {:induction false} ValueRunOver(s: string, i: nat, v: string)
    requires i + |v| <= |s| && s[i..i + |v|] == v && ';' !in v && (i + |v| == |s| || s[i + |v|] == ';')
    ensures ValueRun(s, i) == |v|
    decreases |v|
  {
    if v != [] {
      assert s[i] == v[0];
      assert s[i + 1..i + 1 + |v[1..]|] == v[1..];
      ValueRunOver(s, i + 1, v[1..]);
    }
  }

  /** `v` is the group at the leftmost position where the pattern for `key` matches in
      `s`, or `fallback` when the pattern matches nowhere. */
  predicate LeftmostOr(s: string, key: string, v: string, fallback: string)
  {
    ((forall i :: 0 <= i <= |s| ==> MatchAt(s, key, i).None?) && v == fallback)
    || exists q :: 0 <= q <= |s| && MatchAt(s, key, q) == Some(v)
                   && forall i :: 0 <= i < q ==> MatchAt(s, key, i).None?
  }

  /** The scan from `p` finds the leftmost position from `p` on where the pattern
      matches, and nothing when there is none. */
  lemma {:induction false} FirstMatchIsLeftmost(s: string, key: string, p: nat)
    requires p <= |s|
    ensures FirstMatch(s, key, p).None? ==> forall i :: p <= i <= |s| ==> MatchAt(s, key, i).None?
    ensures FirstMatch(s, key, p).Some? ==>
              exists q :: p <= q <= |s| && MatchAt(s, key, q) == FirstMatch(s, key, p)
                          && forall i :: p <= i < q ==> MatchAt(s, key, i).None?
    decreases |s| - p
  {
    if MatchAt(s, key, p).None? && p < |s| {
      FirstMatchIsLeftmost(s, key, p + 1);
      if FirstMatch(s, key, p).Some? {
        var q :| p + 1 <= q <= |s| && MatchAt(s, key, q) == FirstMatch(s, key, p + 1)
                 && forall i :: p + 1 <= i < q ==> MatchAt(s, key, i).None?;
        assert forall i :: p <= i < q ==> MatchAt(s, key, i).None?;
      }
    }
  }

  /** `getAttrs`: a missing style counts as empty; each of width and height is the group
      of the leftmost match of its pattern, or the default when there is none. */
  function GetAttrs(style: Option<string>): (r: Parsed)
    ensures var s := if style.Some? then style.value else "";
            LeftmostOr(s, "width", r.width, "100%") && LeftmostOr(s, "height", r.height, "auto")
  {
    var s := if style.Some? then style.value else "";
    FirstMatchIsLeftmost(s, "width", 0);
    FirstMatchIsLeftmost(s, "height", 0);
    var widthMatch := Match(s, "width");
    var heightMatch := Match(s, "height");
    Parsed(if widthMatch.Some? then widthMatch.value else "100%",
           if heightMatch.Some? then heightMatch.value else "auto")
  }

  /** The `style` value `renderHTML` writes. */
  function StyleOf(width: string, height: string): string
  {
    "width: " + width + "; height: " + height + "; overflow: hidden;"
  }

  /** A rendered element: its tag and its attributes. */
  datatype Element = Element(tag: string, attributes: map<string, string>)

  /** `renderHTML`: a `div` tagged `image-uploader` whose style carries width and height;
      width and height are not emitted as attributes of their own, and a `null` src is
      not emitted at all. */
  function RenderHTML(a: Attrs): (e: Element)
    ensures e.tag == "div"
    ensures e.attributes.Keys == {"data-type", "style"} + (if a.src.Some? then {"src"} else {})
    ensures e.attributes["data-type"] == "image-uploader"
    ensures e.attributes["style"] == "width: " + a.width + "; height: " + a.height + "; overflow: hidden;"
    ensures a.src.Some? ==> e.attributes["src"] == a.src.value
  {
    var rest := if a.src.Some? then map["src" := a.src.value] else map[];
    Element("div", rest["data-type" := "image-uploader"]["style" := StyleOf(a.width, a.height)])
  }

  /** A node without a style attribute, or with a style that declares neither width nor
      height, parses to the default width and height. */
  lemma MissingStyleGivesDefaults(style: string)
    requires !Includes(style, "width:") && !Includes(style, "height:")
    ensures GetAttrs(None) == Parsed(Defaults().width, Defaults().height)
    ensures GetAttrs(Some(style)) == Parsed(Defaults().width, Defaults().height)
  {
    assert "width" + ":" == "width:" && "height" + ":" == "height:";
    NoKeyNoMatch(style, "width");
    NoKeyNoMatch(style, "height");
    NoKeyNoMatch("", "width");
    NoKeyNoMatch("", "height");
  }

  /** Without `key:` in the style, the pattern does not match. */
  lemma NoKeyNoMatch(s: string, key: string)
    requires !Includes(s, key + ":")
    ensures Match(s, key) == None
  {
    forall i | 0 <= i <= |s| ensures MatchAt(s, key, i).None? {
      if i <= |s| - |key + ":"| {
        assert !OccursAt(s, key + ":", i);
      }
    }
    NoMatchAnywhere(s, key);
  }

  /** An earlier `max-width:` is found before any later `width:`: its value is taken as
      the width, whatever follows it. */
  lemma MaxWidthWins(v: string, rest: string)
    requires v != "" && ';' !in v && !IsSpace(v[0])
    ensures GetAttrs(Some("max-width: " + v + ";" + rest)).width == v
  {
    var pre := "max-width: ";
    var s := pre + v + ";" + rest;
    var key := "width" + ":";
    assert key == "width:";
    forall i | 0 <= i < |pre| ensures s[i] == pre[i] {
    }
    assert pre[0] == 'm' && pre[1] == 'a' && pre[2] == 'x' && pre[3] == '-';
    forall i | 0 <= i < 4 ensures MatchAt(s, "width", i).None? {
      assert s[i..i + 6][0] == s[i] == pre[i];
    }
    assert s[4..10] == key by {
      forall k | 0 <= k < 6 ensures s[4..10][k] == key[k] {
        assert s[4 + k] == pre[4 + k];
      }
    }
    assert AllSpace(s[10..11]) by {
      assert s[10] == pre[10] == ' ';
    }
    assert s[11..11 + |v|] == v;
    assert s[11 + |v|] == ';';
    ReadAfterKey(s, "width", 4, 11, v);
    LeftmostMatch(s, "width", 4);
  }

  /** Parsing the rendered style gives back width and height, when both are non-empty,
      hold no ';', do not start with white space, and the width does not itself contain
      `height:`. */
  lemma RoundTrip(a: Attrs)
    requires a.width != "" && ';' !in a.width && !IsSpace(a.width[0])
    requires a.height != "" && ';' !in a.height && !IsSpace(a.height[0])
    requires !Includes(a.width, "height:")
    ensures GetAttrs(Some(RenderHTML(a).attributes["style"])) == Parsed(a.width, a.height)
  {
    WidthOfStyle(a.width, a.height);
    HeightOfStyle(a.width, a.height);
  }

  lemma WidthOfStyle(w: string, h: string)
    requires w != "" && ';' !in w && !IsSpace(w[0])
    ensures Match(StyleOf(w, h), "width") == Some(w)
  {
    var s := StyleOf(w, h);
    var tail := "; height: " + h + "; overflow: hidden;";
    assert s == "width: " + w + tail;
    assert s[..6] == "width" + ":";
    assert s[7..7 + |w|] == w;
    assert AllSpace(s[6..7]);
    ReadAfterKey(s, "width", 0, 7, w);
    LeftmostMatch(s, "width", 0);
  }

  lemma HeightOfStyle(w: string, h: string)
    requires w != "" && ';' !in w
    requires h != "" && ';' !in h && !IsSpace(h[0])
    requires !Includes(w, "height:")
    ensures Match(StyleOf(w, h), "height") == Some(h)
  {
    var s := StyleOf(w, h);
    var p := 9 + |w|;
    assert s == ("width: " + w + "; ") + ("height: " + h + "; overflow: hidden;");
    forall i | 0 <= i < p ensures MatchAt(s, "height", i).None? {
      NoHeightBefore(w, h, i);
    }
    assert s[p..p + 7] == "height" + ":";
    assert s[p + 8..p + 8 + |h|] == h;
    assert AllSpace(s[p + 7..p + 8]);
    ReadAfterKey(s, "height", p, p + 8, h);
    LeftmostMatch(s, "height", p);
  }

  /** Before the "height:" that `renderHTML` writes there is none: not in "width: ", not
      in the width, and not across the "; " after it. */
  lemma NoHeightBefore(w: string, h: string, i: nat)
    requires ';' !in w && !Includes(w, "height:") && i < 9 + |w|
    ensures !OccursAt(StyleOf(w, h), "height" + ":", i)
  {
    var s := StyleOf(w, h);
    var key := "height:";
    assert "height" + ":" == key;
    assert s == "width: " + w + "; height: " + h + "; overflow: hidden;";
    if i + 7 <= |s| {
      if i < 7 {
        assert s[..7] == "width: ";
        if i == 4 {
          assert s[i..i + 7][1] != key[1];
        } else {
          assert s[i..i + 7][0] != key[0];
        }
      } else if i <= |w| {
        assert s[i..i + 7] == w[i - 7..i];
        assert !OccursAt(w, key, i - 7);
      } else if i <= 7 + |w| {
        var k := 7 + |w| - i;
        assert s[7 + |w|] == ';';
        assert s[i..i + 7][k] != key[k];
      } else {
        assert s[8 + |w|] == ' ';
        assert s[i..i + 7][0] != key[0];
      }
    }
  }
}
