/** Pulling a payload out of the page a browser rendered around it. */
module FlareSolverr {
  import opened Model
  import opened Text

  // ----- the five basic entities

  /** How one character is written inside HTML text. */
  function EscapeChar(c: char): (e: string)
    ensures e != []
    ensures '<' !in e && '>' !in e
  {
    if c == '&' then "&amp;"
    else if c == '<' then "&lt;"
    else if c == '>' then "&gt;"
    else if c == '\'' then "&#39;"
    else if c == '"' then "&#34;"
    else [c]
  }

  function Escape(s: string): string {
    if s == [] then [] else EscapeChar(s[0]) + Escape(s[1..])
  }

  function Unescape(s: string): string {
    if s == [] then []
    else if "&amp;" <= s then ['&'] + Unescape(s[5..])
    else if "&lt;" <= s then ['<'] + Unescape(s[4..])
    else if "&gt;" <= s then ['>'] + Unescape(s[4..])
    else if "&#39;" <= s then ['\''] + Unescape(s[5..])
    else if "&#34;" <= s then ['"'] + Unescape(s[5..])
    else [s[0]] + Unescape(s[1..])
  }

  /** At most one of the five entities starts a string. */
  lemma EntityIs(s: string, e: string)
    requires e in {"&amp;", "&lt;", "&gt;", "&#39;", "&#34;"} && e <= s
    ensures "&amp;" <= s ==> e == "&amp;"
    ensures "&lt;" <= s ==> e == "&lt;"
    ensures "&gt;" <= s ==> e == "&gt;"
    ensures "&#39;" <= s ==> e == "&#39;"
    ensures "&#34;" <= s ==> e == "&#34;"
  {
    assert s[1] == e[1] && s[2] == e[2] && s[3] == e[3];
  }

  lemma UnescapeFirst(c: char, rest: string)
    ensures Unescape(EscapeChar(c) + rest) == [c] + Unescape(rest)
  {
    var e := EscapeChar(c);
    var s := e + rest;
    assert s[|e|..] == rest;
    if e == [c] {
      assert s[0] == c;
    } else {
      EntityIs(s, e);
    }
  }

  predicate StartsWithEntity(s: string) {
    "&amp;" <= s || "&lt;" <= s || "&gt;" <= s || "&#39;" <= s || "&#34;" <= s
  }

  /** Which entity stands for which character. */
  predicate IsEntity(c: char, e: string) {
    || (c == '&' && e == "&amp;")
    || (c == '<' && e == "&lt;")
    || (c == '>' && e == "&gt;")
    || (c == '\'' && e == "&#39;")
    || (c == '"' && e == "&#34;")
  }

  /** An entity stands for its character. */
  lemma EntitiesRead(c: char, e: string, rest: string)
    requires IsEntity(c, e)
    ensures Unescape(e + rest) == [c] + Unescape(rest)
  {
    assert e == EscapeChar(c);
    UnescapeFirst(c, rest);
  }

  /** Anything else stands for itself. */
  lemma OthersRead(c: char, rest: string)
    requires !StartsWithEntity([c] + rest)
    ensures Unescape([c] + rest) == [c] + Unescape(rest)
  {
    assert ([c] + rest)[1..] == rest;
  }

  lemma {:induction false} UnescapeEscape(s: string)
    ensures Unescape(Escape(s)) == s
  {
    if s == [] {
    } else {
      UnescapeEscape(s[1..]);
      UnescapeFirst(s[0], Escape(s[1..]));
    }
  }

  lemma {:induction false} EscapeHasNoTags(s: string)
    ensures '<' !in Escape(s) && '>' !in Escape(s)
  {
    if s == [] {
    } else {
      EscapeHasNoTags(s[1..]);
    }
  }

  lemma {:induction false} EscapeSnoc(s: string, c: char)
    ensures Escape(s + [c]) == Escape(s) + EscapeChar(c)
  {
    if s == [] {
      assert s + [c] == [c] && [c][1..] == [] && Escape([]) == [];
      assert EscapeChar(c) + [] == EscapeChar(c);
    } else {
      assert (s + [c])[1..] == s[1..] + [c];
      EscapeSnoc(s[1..], c);
      Regroup(EscapeChar(s[0]), Escape(s[1..]), EscapeChar(c));
    }
  }

  // ----- trimming commutes with escaping

  lemma EscapeCharSpace(c: char)
    ensures IsSpace(c) ==> EscapeChar(c) == [c]
    ensures !IsSpace(c) ==> !IsSpace(EscapeChar(c)[0]) && !IsSpace(EscapeChar(c)[|EscapeChar(c)| - 1])
  {
  }

  lemma {:induction false} TrimLeftEscape(s: string)
    ensures TrimLeft(Escape(s)) == Escape(TrimLeft(s))
  {
    if s == [] {
    } else {
      EscapeCharSpace(s[0]);
      assert Escape(s)[0] == EscapeChar(s[0])[0];
      if IsSpace(s[0]) {
        assert Escape(s)[1..] == Escape(s[1..]);
        TrimLeftEscape(s[1..]);
      }
    }
  }

  lemma {:induction false} TrimRightEscape(s: string)
    ensures TrimRight(Escape(s)) == Escape(TrimRight(s))
  {
    if s == [] {
    } else {
      var front, c := s[..|s| - 1], s[|s| - 1];
      assert s == front + [c];
      EscapeSnoc(front, c);
      EscapeCharSpace(c);
      if IsSpace(c) {
        assert Escape(s)[..|Escape(s)| - 1] == Escape(front);
        TrimRightEscape(front);
      }
    }
  }

  // ----- the extraction

  predicate StartsLikeJson(s: string) {
    s != [] && (s[0] == '{' || s[0] == '[')
  }

  /** What stands between the first tag and its end, if both are there. */
  function PreBody(s: string): Option<string> {
    var open := Find(s, "<pre", 0);
    if open < 0 then None
    else
      var gt := Find(s, ">", open);
      if gt < 0 then None
      else
        var rest := s[gt + 1..];
        var close := Find(rest, "</pre>", 0);
        if close < 0 then None else Some(rest[..close])
  }

  function ExtractBody(s: string): string {
    var trimmed := Trim(s);
    if StartsLikeJson(trimmed) then trimmed
    else
      var body := PreBody(s);
      if body.None? then trimmed else Unescape(Trim(body.value))
  }

  /** The page a browser shows for a raw payload. */
  function Rendered(prefix: string, attributes: string, payload: string, suffix: string): string {
    prefix + ("<pre" + (attributes + (">" + (Escape(payload) + ("</pre>" + suffix)))))
  }

  lemma OpensAt(prefix: string, rest: string)
    requires !Contains(prefix, "<pre")
    ensures Find(prefix + ("<pre" + rest), "<pre", 0) == |prefix|
  {
    var s := prefix + ("<pre" + rest);
    assert s[|prefix|..] == "<pre" + rest;
    forall j | 0 <= j < |prefix| ensures !At(s, "<pre", j) {
      if At(s, "<pre", j) {
        PreInPrefix(prefix, rest, j);
      }
    }
    FoundExactly(s, "<pre", 0, |prefix|);
  }

  /** The tag cannot straddle the border: its first character occurs nowhere else in it. */
  lemma PreInPrefix(prefix: string, rest: string, j: int)
    requires 0 <= j < |prefix| && At(prefix + ("<pre" + rest), "<pre", j)
    ensures Contains(prefix, "<pre")
  {
    var s := prefix + ("<pre" + rest);
    var t := s[j..];
    assert "<pre" <= t;
    assert t[1] == s[j + 1] && t[2] == s[j + 2] && t[3] == s[j + 3];
    assert s[|prefix|] == '<';
    assert j + 4 <= |prefix|;
    assert prefix[j..] == t[..|prefix| - j];
    assert At(prefix, "<pre", j);
  }

  lemma FirstAfter(before: string, tag: string, rest: string)
    requires '>' !in tag
    ensures Find(before + (tag + (">" + rest)), ">", |before|) == |before| + |tag|
  {
    var s := before + (tag + (">" + rest));
    forall j | |before| <= j < |before| + |tag| ensures s[j] != '>' {
      assert s[j] == tag[j - |before|];
    }
    assert s[|before| + |tag|] == '>';
    FindFirst(s, '>', |before|, |before| + |tag|);
  }

  lemma GtAt(before: string, attributes: string, rest: string)
    requires '>' !in attributes
    ensures Find(before + ("<pre" + (attributes + (">" + rest))), ">", |before|) == |before| + 4 + |attributes|
  {
    Regroup("<pre", attributes, ">" + rest);
    FirstAfter(before, "<pre" + attributes, rest);
  }

  lemma ClosesAt(body: string, suffix: string)
    requires '<' !in body
    ensures Find(body + ("</pre>" + suffix), "</pre>", 0) == |body|
  {
    var s := body + ("</pre>" + suffix);
    assert s[|body|..] == "</pre>" + suffix;
    forall j | 0 <= j < |body| ensures !At(s, "</pre>", j) {
      assert s[j..][0] == s[j] == body[j];
    }
    FoundExactly(s, "</pre>", 0, |body|);
  }

  lemma {:induction false} TrimRightKeepsHead(s: string)
    requires s != [] && !IsSpace(s[0])
    ensures TrimRight(s) != [] && TrimRight(s)[0] == s[0]
  {
    if !IsSpace(s[|s| - 1]) {
    } else {
      TrimRightKeepsHead(s[..|s| - 1]);
    }
  }

  /** A page starts like JSON exactly when what precedes its first tag does. */
  lemma {:induction false} PageStart(prefix: string, rest: string)
    requires rest != [] && rest[0] == '<'
    ensures StartsLikeJson(Trim(prefix + rest)) <==> StartsLikeJson(TrimLeft(prefix))
  {
    var s := prefix + rest;
    if prefix == [] {
      assert s == rest;
      TrimRightKeepsHead(rest);
    } else if IsSpace(prefix[0]) {
      assert s[1..] == prefix[1..] + rest;
      PageStart(prefix[1..], rest);
    } else {
      TrimRightKeepsHead(s);
    }
  }

  /**
   Unwrapping undoes rendering. For every payload, attribute text and suffix, and
   every prefix without an earlier tag, extraction gives the payload back up to
   outer white space, unless the prefix already looks like JSON: then the whole
   page comes back, merely trimmed.
   */
  lemma UnwrapRendered(prefix: string, attributes: string, payload: string, suffix: string)
    requires !Contains(prefix, "<pre") && '>' !in attributes
    ensures var page := Rendered(prefix, attributes, payload, suffix);
            ExtractBody(page) == if StartsLikeJson(TrimLeft(prefix)) then Trim(page) else Trim(payload)
  {
    var body := Escape(payload);
    var tail := body + ("</pre>" + suffix);
    var rest := attributes + (">" + tail);
    PageStart(prefix, "<pre" + rest);
    if !StartsLikeJson(TrimLeft(prefix)) {
      OpensAt(prefix, rest);
      GtAt(prefix, attributes, tail);
      AfterTag(prefix, attributes, tail);
      EscapeHasNoTags(payload);
      ClosesAt(body, suffix);
      TrimsAndUnescapes(payload);
      PreBodyAt(prefix + ("<pre" + rest), |prefix|, |prefix| + 4 + |attributes|, tail, |body|);
      assert tail[..|body|] == body;
    }
  }

  /** Extraction in terms of where its three searches stop. */
  lemma PreBodyAt(page: string, open: int, gt: int, tail: string, close: int)
    requires Find(page, "<pre", 0) == open && 0 <= open
    requires Find(page, ">", open) == gt && 0 <= gt < |page| && page[gt + 1..] == tail
    requires Find(tail, "</pre>", 0) == close && 0 <= close <= |tail|
    ensures PreBody(page) == Some(tail[..close])
  {
  }

  /** The first place of a text at or after `from`. */
  ghost predicate First(s: string, pat: string, from: nat, i: int) {
    from <= i && At(s, pat, i) && forall j :: from <= j < i ==> !At(s, pat, j)
  }

  /** The first tag opens at `open`, ends at `gt`, and closes `close` characters behind its end. */
  ghost predicate HasBody(s: string, open: int, gt: int, close: int) {
    && First(s, "<pre", 0, open)
    && First(s, ">", open, gt) && gt < |s|
    && First(s[gt + 1..], "</pre>", 0, close) && close <= |s| - gt - 1
  }

  lemma FindIsFirst(s: string, pat: string, from: nat, i: int)
    ensures Find(s, pat, from) == i && 0 <= i <==> First(s, pat, from, i)
  {
    FindExact(s, pat, from);
    if First(s, pat, from, i) {
      FoundExactly(s, pat, from, i);
    }
  }

  lemma BodyIsFound(s: string, open: int, gt: int, close: int)
    requires HasBody(s, open, gt, close)
    ensures PreBody(s) == Some(s[gt + 1..][..close])
  {
    FindIsFirst(s, "<pre", 0, open);
    FindIsFirst(s, ">", open, gt);
    FindIsFirst(s[gt + 1..], "</pre>", 0, close);
    PreBodyAt(s, open, gt, s[gt + 1..], close);
  }

  lemma FoundIsBody(s: string) returns (open: int, gt: int, close: int)
    requires PreBody(s).Some?
    ensures HasBody(s, open, gt, close)
  {
    open := Find(s, "<pre", 0);
    gt := Find(s, ">", open);
    close := Find(s[gt + 1..], "</pre>", 0);
    FindIsFirst(s, "<pre", 0, open);
    FindIsFirst(s, ">", open, gt);
    FindIsFirst(s[gt + 1..], "</pre>", 0, close);
  }

  /**
   The extraction of every page: what looks like JSON, and a page without a complete
   element, comes back trimmed; from any other page the text of its first element
   does, trimmed and then unescaped.
   */
  lemma ExtractExact(s: string)
    ensures StartsLikeJson(Trim(s)) ==> ExtractBody(s) == Trim(s)
    ensures (forall open, gt, close :: !HasBody(s, open, gt, close)) ==> ExtractBody(s) == Trim(s)
    ensures forall open, gt, close :: HasBody(s, open, gt, close) && !StartsLikeJson(Trim(s)) ==>
              ExtractBody(s) == Unescape(Trim(s[gt + 1..][..close]))
  {
    forall open, gt, close | HasBody(s, open, gt, close) ensures PreBody(s) == Some(s[gt + 1..][..close]) {
      BodyIsFound(s, open, gt, close);
    }
    if PreBody(s).Some? {
      var open, gt, close := FoundIsBody(s);
    }
  }

  lemma TrimsAndUnescapes(payload: string)
    ensures Unescape(Trim(Escape(payload))) == Trim(payload)
  {
    TrimLeftEscape(payload);
    TrimRightEscape(TrimLeft(payload));
    UnescapeEscape(Trim(payload));
  }

  lemma AfterTag(prefix: string, attributes: string, tail: string)
    ensures (prefix + ("<pre" + (attributes + (">" + tail))))[|prefix| + 4 + |attributes| + 1..] == tail
  {
    assert (prefix + ("<pre" + (attributes + (">" + tail))))[|prefix|..] == "<pre" + (attributes + (">" + tail));
    assert ("<pre" + (attributes + (">" + tail)))[4..] == attributes + (">" + tail);
    assert (attributes + (">" + tail))[|attributes|..] == ">" + tail;
  }

  /** Raw JSON comes back merely trimmed, whatever it contains. */
  lemma RawJsonPasses(before: string, payload: string, after: string)
    requires AllSpace(before) && AllSpace(after)
    requires Tight(payload) && StartsLikeJson(payload)
    ensures ExtractBody(before + payload + after) == payload
  {
    TrimPadded(before, payload, after);
  }
}
