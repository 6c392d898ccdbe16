/** The sidebar webview's page: the built index.html is rewritten in four
    steps before the webview shows it (asset paths, `<base>` removal, a
    Content-Security-Policy meta tag, a nonce on every script), and the nonce
    is a random 32-character token. Reading the file, the webview URIs and
    `Math.random` are outside the model: their results are parameters. */
module Sidebar {
  import opened Results

  // ---------------------------------------------------------------------
  // Finding text

  /** `pat` occurs in `s` at position `i`. */
  predicate OccursAt(s: string, pat: string, i: nat) {
    i + |pat| <= |s| && s[i..i + |pat|] == pat
  }

  /** The first occurrence of `pat` in `s` at or after `from`. */
  function IndexFrom(s: string, pat: string, from: nat): (r: Option<nat>)
    ensures r.Some? ==> from <= r.value && OccursAt(s, pat, r.value)
    ensures r.Some? ==> forall j :: from <= j < r.value ==> !OccursAt(s, pat, j)
    ensures r.None? ==> forall j :: from <= j ==> !OccursAt(s, pat, j)
    decreases |s| - from
  {
    if from + |pat| > |s| then None
    else if s[from..from + |pat|] == pat then Some(from)
    else IndexFrom(s, pat, from + 1)
  }

  /** `s.indexOf(pat)`, None for -1. */
  function IndexOf(s: string, pat: string): (r: Option<nat>)
    ensures r.Some? ==> OccursAt(s, pat, r.value)
    ensures r.Some? ==> forall j :: 0 <= j < r.value ==> !OccursAt(s, pat, j)
    ensures r.None? ==> forall j :: 0 <= j ==> !OccursAt(s, pat, j)
  {
    IndexFrom(s, pat, 0)
  }

  /** `s.includes(pat)`. */
  predicate Includes(s: string, pat: string) {
    IndexOf(s, pat).Some?
  }

  // ---------------------------------------------------------------------
  // Step 1: asset paths

  const HREF_ASSETS := "href=\"/assets/"
  const SRC_ASSETS := "src=\"/assets/"

  /** A match of /(href|src)="\/assets\// at the start of `s`. */
  predicate AssetRefAt(s: string) {
    HREF_ASSETS <= s || SRC_ASSETS <= s
  }

  /** `html.replace(/(href|src)="\/assets\//g, ...)`: left to right, every
      match becomes the same attribute name, `="`, the assets URI and `/`;
      all other text is copied. */
  function RewriteAssets(html: string, assetsUri: string): string
    decreases |html|
  {
    if html == [] then []
    else if HREF_ASSETS <= html then
      "href=\"" + assetsUri + "/" + RewriteAssets(html[|HREF_ASSETS|..], assetsUri)
    else if SRC_ASSETS <= html then
      "src=\"" + assetsUri + "/" + RewriteAssets(html[|SRC_ASSETS|..], assetsUri)
    else [html[0]] + RewriteAssets(html[1..], assetsUri)
  }

  /** The number of matches the same scan replaces. */
  function AssetRefCount(html: string): nat
    decreases |html|
  {
    if html == [] then 0
    else if HREF_ASSETS <= html then 1 + AssetRefCount(html[|HREF_ASSETS|..])
    else if SRC_ASSETS <= html then 1 + AssetRefCount(html[|SRC_ASSETS|..])
    else AssetRefCount(html[1..])
  }

  /** Every match grows the page by the difference between the URI and the
      "/assets" path it replaces; nothing else changes length. */
  lemma {:induction false} RewriteAssetsLength(html: string, assetsUri: string)
    ensures |RewriteAssets(html, assetsUri)| == |html| + AssetRefCount(html) * (|assetsUri| - 7)
    decreases |html|
  {
    if html == [] {
    } else if HREF_ASSETS <= html {
      RewriteAssetsLength(html[|HREF_ASSETS|..], assetsUri);
      OneMore(AssetRefCount(html[|HREF_ASSETS|..]), |assetsUri| - 7);
    } else if SRC_ASSETS <= html {
      RewriteAssetsLength(html[|SRC_ASSETS|..], assetsUri);
      OneMore(AssetRefCount(html[|SRC_ASSETS|..]), |assetsUri| - 7);
    } else {
      RewriteAssetsLength(html[1..], assetsUri);
    }
  }

  lemma OneMore(count: nat, growth: int)
    ensures (1 + count) * growth == count * growth + growth
  {
  }

  /** With "/assets" itself as the URI the rewrite gives back the page: each
      match is replaced by exactly its own text. */
  lemma {:induction false} RewriteAssetsToSelf(html: string)
    ensures RewriteAssets(html, "/assets") == html
    decreases |html|
  {
    if html == [] {
    } else if HREF_ASSETS <= html {
      var rest := html[|HREF_ASSETS|..];
      RewriteAssetsToSelf(rest);
      assert "href=\"" + "/assets" + "/" == HREF_ASSETS;
      PrefixSplit(HREF_ASSETS, html);
    } else if SRC_ASSETS <= html {
      var rest := html[|SRC_ASSETS|..];
      RewriteAssetsToSelf(rest);
      assert "src=\"" + "/assets" + "/" == SRC_ASSETS;
      PrefixSplit(SRC_ASSETS, html);
    } else {
      RewriteAssetsToSelf(html[1..]);
      PrefixSplit(html[..1], html);
    }
  }

  lemma PrefixSplit(p: string, s: string)
    requires p <= s
    ensures s == p + s[|p|..]
  {
  }

  /** Putting the first character back in front of the rest of `p`. */
  lemma ConsAppend(p: string, x: string)
    requires p != []
    ensures [p[0]] + (p[1..] + x) == p + x
  {
  }

  /** At a match the scan writes the attribute name, `="`, the URI and `/`,
      then goes on right after the matched text, whatever the URI. */
  lemma RewriteAssetsMatch(t: string, assetsUri: string)
    ensures RewriteAssets(HREF_ASSETS + t, assetsUri) == "href=\"" + assetsUri + "/" + RewriteAssets(t, assetsUri)
    ensures RewriteAssets(SRC_ASSETS + t, assetsUri) == "src=\"" + assetsUri + "/" + RewriteAssets(t, assetsUri)
  {
    var h := HREF_ASSETS + t;
    assert HREF_ASSETS <= h && h[|HREF_ASSETS|..] == t;
    var c := SRC_ASSETS + t;
    assert c[0] == 's';
    assert !(HREF_ASSETS <= c);
    assert SRC_ASSETS <= c && c[|SRC_ASSETS|..] == t;
  }

  /** Text in which no position starts a match is copied as it is, whatever
      the URI, and the scan goes on with what follows it. */
  lemma {:induction false} RewriteAssetsCopiesText(p: string, t: string, assetsUri: string)
    requires forall i :: 0 <= i < |p| ==> !AssetRefAt((p + t)[i..])
    ensures RewriteAssets(p + t, assetsUri) == p + RewriteAssets(t, assetsUri)
    decreases |p|
  {
    if p == [] {
      assert p + t == t;
    } else {
      var s := p + t;
      assert RewriteAssets(s, assetsUri) == [p[0]] + RewriteAssets(p[1..] + t, assetsUri) by {
        assert s[0..] == s;
        assert s[1..] == p[1..] + t;
      }
      assert RewriteAssets(p[1..] + t, assetsUri) == p[1..] + RewriteAssets(t, assetsUri) by {
        forall i | 0 <= i < |p[1..]|
          ensures !AssetRefAt((p[1..] + t)[i..])
        {
          assert (p[1..] + t)[i..] == s[i + 1..];
        }
        RewriteAssetsCopiesText(p[1..], t, assetsUri);
      }
      ConsAppend(p, RewriteAssets(t, assetsUri));
    }
  }

  /** The scan replaces nothing exactly when no position of the page starts
      a match, and then the page is unchanged. */
  lemma {:induction false} NoAssetRefs(html: string, assetsUri: string)
    ensures AssetRefCount(html) == 0 <==> forall i :: 0 <= i <= |html| ==> !AssetRefAt(html[i..])
    ensures AssetRefCount(html) == 0 ==> RewriteAssets(html, assetsUri) == html
    decreases |html|
  {
    if html == [] {
    } else if AssetRefAt(html) {
      assert html[0..] == html;
    } else {
      NoAssetRefs(html[1..], assetsUri);
      assert forall i :: 1 <= i <= |html| ==> html[i..] == html[1..][i - 1..];
      assert html == [html[0]] + html[1..];
      if AssetRefCount(html) == 0 {
        forall i | 0 <= i <= |html| ensures !AssetRefAt(html[i..]) {
          if i > 0 {
            assert html[i..] == html[1..][i - 1..];
          }
        }
      }
      if forall i :: 0 <= i <= |html| ==> !AssetRefAt(html[i..]) {
        forall i | 0 <= i <= |html[1..]| ensures !AssetRefAt(html[1..][i..]) {
          assert html[1..][i..] == html[i + 1..];
        }
      }
    }
  }

  // ---------------------------------------------------------------------
  // Step 2: the <base> tag

  const BASE_OPEN := "<base href=\"/\""

  /** A character of JavaScript's `\s` class. */
  predicate IsRegexSpace(c: char) {
    var n := c as int;
    n == 0x09 || n == 0x0A || n == 0x0B || n == 0x0C || n == 0x0D || n == 0x20
    || n == 0xA0 || n == 0x1680 || (0x2000 <= n <= 0x200A) || n == 0x2028 || n == 0x2029
    || n == 0x202F || n == 0x205F || n == 0x3000 || n == 0xFEFF
  }

  /** The length of the run of `\s` characters that starts `s`. */
  function SpaceRun(s: string): (n: nat)
    ensures n <= |s|
    ensures forall i :: 0 <= i < n ==> IsRegexSpace(s[i])
    ensures n < |s| ==> !IsRegexSpace(s[n])
    decreases |s|
  {
    if s != [] && IsRegexSpace(s[0]) then 1 + SpaceRun(s[1..]) else 0
  }

  /** The length of a match of /<base href="\/"\s*\/?>/ at the start of `s`,
      0 when there is none. The spaces are taken greedily; since a space is
      neither '/' nor '>', giving some back could not produce a match. */
  function BaseTagAt(s: string): (n: nat)
    ensures n <= |s|
    ensures n > 0 ==> n > |BASE_OPEN| && BASE_OPEN <= s
  {
    if !(BASE_OPEN <= s) then 0
    else
      var k := |BASE_OPEN| + SpaceRun(s[|BASE_OPEN|..]);
      if k < |s| && s[k] == '>' then k + 1
      else if k + 1 < |s| && s[k] == '/' && s[k + 1] == '>' then k + 2
      else 0
  }

  /** `html.replace(/<base href="\/"\s*\/?>/g, "")`: one left-to-right pass
      deleting every match. */
  function RemoveBaseTags(html: string): string
    decreases |html|
  {
    if html == [] then []
    else if BaseTagAt(html) > 0 then RemoveBaseTags(html[BaseTagAt(html)..])
    else [html[0]] + RemoveBaseTags(html[1..])
  }

  /** Text in which no position starts a tag is copied as it is, and the
      scan goes on with what follows it. */
  lemma {:induction false} RemoveBaseTagsCopiesText(p: string, t: string)
    requires forall i {:trigger BaseTagAt((p + t)[i..])} :: 0 <= i < |p| ==> BaseTagAt((p + t)[i..]) == 0
    ensures RemoveBaseTags(p + t) == p + RemoveBaseTags(t)
    decreases |p|
  {
    if p == [] {
      assert p + t == t;
    } else {
      var s := p + t;
      assert RemoveBaseTags(s) == [p[0]] + RemoveBaseTags(p[1..] + t) by {
        assert s[0..] == s;
        assert s[1..] == p[1..] + t;
      }
      assert RemoveBaseTags(p[1..] + t) == p[1..] + RemoveBaseTags(t) by {
        forall i | 0 <= i < |p[1..]|
          ensures BaseTagAt((p[1..] + t)[i..]) == 0
        {
          assert (p[1..] + t)[i..] == s[i + 1..];
        }
        RemoveBaseTagsCopiesText(p[1..], t);
      }
      ConsAppend(p, RemoveBaseTags(t));
    }
  }

  /** The tags the pattern matches: the opening text, any run of spaces,
      an optional slash and the closing bracket. Such a tag at the front is
      deleted and the scan goes on right after it. */
  lemma BaseTagDeleted(spaces: string, selfClosing: bool, rest: string)
    requires forall i :: 0 <= i < |spaces| ==> IsRegexSpace(spaces[i])
    ensures RemoveBaseTags(BASE_OPEN + spaces + (if selfClosing then "/>" else ">") + rest)
         == RemoveBaseTags(rest)
  {
    var close := if selfClosing then "/>" else ">";
    var s := BASE_OPEN + spaces + close + rest;
    assert BASE_OPEN <= s;
    var after := s[|BASE_OPEN|..];
    assert after == spaces + close + rest;
    SpaceRunOver(spaces, close + rest);
    var k := |BASE_OPEN| + |spaces|;
    assert s[k] == close[0];
    if selfClosing {
      assert s[k + 1] == '>';
      assert BaseTagAt(s) == k + 2;
    } else {
      assert BaseTagAt(s) == k + 1;
    }
    assert s[BaseTagAt(s)..] == rest;
  }

  lemma {:induction false} SpaceRunOver(spaces: string, t: string)
    requires forall i :: 0 <= i < |spaces| ==> IsRegexSpace(spaces[i])
    requires t != [] && (t[0] == '/' || t[0] == '>')
    ensures SpaceRun(spaces + t) == |spaces|
    decreases |spaces|
  {
    if spaces == [] {
      assert spaces + t == t;
    } else {
      assert (spaces + t)[1..] == spaces[1..] + t;
      SpaceRunOver(spaces[1..], t);
    }
  }

  /** A page in which no position starts `<base href="/"` is left as it is. */
  lemma {:induction false} NoBaseTagUnchanged(html: string)
    requires forall i :: 0 <= i <= |html| ==> !(BASE_OPEN <= html[i..])
    ensures RemoveBaseTags(html) == html
    decreases |html|
  {
    if html != [] {
      assert html[0..] == html;
      forall i | 0 <= i <= |html[1..]| ensures !(BASE_OPEN <= html[1..][i..]) {
        assert html[1..][i..] == html[i + 1..];
      }
      NoBaseTagUnchanged(html[1..]);
      assert html == [html[0]] + html[1..];
    }
  }

  /** Removing tags never makes the page longer. */
  lemma {:induction false} RemoveBaseTagsShorter(html: string)
    ensures |RemoveBaseTags(html)| <= |html|
    decreases |html|
  {
    if html != [] {
      if BaseTagAt(html) > 0 {
        RemoveBaseTagsShorter(html[BaseTagAt(html)..]);
      } else {
        RemoveBaseTagsShorter(html[1..]);
      }
    }
  }

  // ---------------------------------------------------------------------
  // Step 3: the Content-Security-Policy meta tag

  /** `<meta http-equiv="Content-Security-Policy"`: a page holding this text
      already has a policy. */
  const CSP_MARKER := "<" + CSP_MARKER_NAME
  const CSP_MARKER_NAME := "meta http-equiv=\"Content-Security-Policy\""
  const HEAD_OPEN := "<head>"
  /** What is put between `<head>` and the meta tag: a newline and four spaces. */
  const CSP_INDENT := "\n    "

  /** The policy: nothing by default, styles from the webview's own source
      and inline, scripts only with the nonce, images from the webview's
      source and https. */
  function CspPolicy(cspSource: string, nonce: string): string {
    "default-src 'none'; "
    + "style-src " + cspSource + " 'unsafe-inline'; "
    + "script-src 'nonce-" + nonce + "'; "
    + "img-src " + cspSource + " https:;"
  }

  function CspMetaTag(cspSource: string, nonce: string): string {
    CSP_MARKER + " content=\"" + CspPolicy(cspSource, nonce) + "\">"
  }

  /** When the page has no CSP meta tag yet, `html.replace('<head>', ...)`
      puts one right after the first `<head>`; a later `<head>` is not
      touched and a page without one is left as it is. */
  function AddCspMeta(html: string, cspSource: string, nonce: string): (r: string)
    ensures Includes(html, CSP_MARKER) ==> r == html
    ensures !Includes(html, HEAD_OPEN) ==> r == html
    ensures !Includes(html, CSP_MARKER) && Includes(html, HEAD_OPEN) ==>
      exists i: nat :: && OccursAt(html, HEAD_OPEN, i)
                  && (forall j :: 0 <= j < i ==> !OccursAt(html, HEAD_OPEN, j))
                  && r == html[..i + |HEAD_OPEN|] + CSP_INDENT + CspMetaTag(cspSource, nonce)
                          + html[i + |HEAD_OPEN|..]
  {
    if Includes(html, CSP_MARKER) then html
    else match IndexOf(html, HEAD_OPEN)
      case None => html
      case Some(i) =>
        html[..i + |HEAD_OPEN|] + CSP_INDENT + CspMetaTag(cspSource, nonce) + html[i + |HEAD_OPEN|..]
  }

  // ---------------------------------------------------------------------
  // Step 4: script nonces

  const SCRIPT_OPEN := "<script"

  /** `<script` starts at position `i` of `s`, compared character by character. */
  predicate ScriptAt(s: string, i: nat) {
    && i + 7 <= |s|
    && s[i] == '<' && s[i + 1] == 's' && s[i + 2] == 'c' && s[i + 3] == 'r'
    && s[i + 4] == 'i' && s[i + 5] == 'p' && s[i + 6] == 't'
  }

  /** `ScriptAt` is exactly an occurrence of `<script`. */
  lemma ScriptAtIsOccurrence(s: string, i: nat)
    ensures ScriptAt(s, i) <==> OccursAt(s, SCRIPT_OPEN, i)
  {
    if i + |SCRIPT_OPEN| <= |s| {
      var w := s[i..i + |SCRIPT_OPEN|];
      assert forall k :: 0 <= k < |SCRIPT_OPEN| ==> w[k] == s[i + k];
      if ScriptAt(s, i) {
        assert w == SCRIPT_OPEN;
      }
    }
  }

  function NonceAttribute(nonce: string): string {
    " nonce=\"" + nonce + "\""
  }

  /** `html.replace(/<script/g, '<script nonce="N"')`. */
  function StampNonce(html: string, nonce: string): string
    decreases |html|
  {
    if html == [] then []
    else if ScriptAt(html, 0) then
      SCRIPT_OPEN + NonceAttribute(nonce) + StampNonce(html[|SCRIPT_OPEN|..], nonce)
    else [html[0]] + StampNonce(html[1..], nonce)
  }

  /** The number of `<script` occurrences (they cannot overlap). */
  function ScriptCount(html: string): nat
    decreases |html|
  {
    if html == [] then 0
    else if ScriptAt(html, 0) then 1 + ScriptCount(html[|SCRIPT_OPEN|..])
    else ScriptCount(html[1..])
  }

  /** Every `<script` of the page is directly followed by the nonce attribute. */
  ghost predicate ScriptsCarryNonce(html: string, nonce: string) {
    forall i: nat :: ScriptAt(html, i) ==> OccursAt(html, NonceAttribute(nonce), i + |SCRIPT_OPEN|)
  }

  lemma NonceAttributeLtFree(nonce: string)
    requires '<' !in nonce
    ensures '<' !in NonceAttribute(nonce)
  {
    assert '<' !in " nonce=\"" && '<' !in "\"";
  }

  /** Text without '<' passes through the stamping unchanged. */
  lemma {:induction false} StampLtFree(p: string, t: string, nonce: string)
    requires '<' !in p
    ensures StampNonce(p + t, nonce) == p + StampNonce(t, nonce)
    decreases |p|
  {
    if p == [] {
      assert p + t == t;
    } else {
      assert (p + t)[0] == p[0];
      assert (p + t)[1..] == p[1..] + t;
      StampLtFree(p[1..], t, nonce);
      assert p == [p[0]] + p[1..];
    }
  }

  /** Text in which no position starts `<script` is copied as it is, and
      the stamping goes on with what follows it. */
  lemma {:induction false} StampNonceCopiesText(p: string, t: string, nonce: string)
    requires forall i :: 0 <= i < |p| ==> !ScriptAt(p + t, i)
    ensures StampNonce(p + t, nonce) == p + StampNonce(t, nonce)
    decreases |p|
  {
    if p == [] {
      assert p + t == t;
    } else {
      var s := p + t;
      assert StampNonce(s, nonce) == [p[0]] + StampNonce(p[1..] + t, nonce) by {
        assert !ScriptAt(s, 0);
        assert s[1..] == p[1..] + t;
      }
      assert StampNonce(p[1..] + t, nonce) == p[1..] + StampNonce(t, nonce) by {
        forall i | 0 <= i < |p[1..]|
          ensures !ScriptAt(p[1..] + t, i)
        {
          assert !ScriptAt(s, i + 1);
        }
        StampNonceCopiesText(p[1..], t, nonce);
      }
      ConsAppend(p, StampNonce(t, nonce));
    }
  }

  /** A page cut right after a '>' can be stamped piece by piece: no
      `<script` straddles the cut. */
  lemma {:induction false} StampConcat(a: string, b: string, nonce: string)
    requires a == [] || a[|a| - 1] == '>'
    ensures StampNonce(a + b, nonce) == StampNonce(a, nonce) + StampNonce(b, nonce)
    decreases |a|
  {
    if a == [] {
      assert a + b == b;
    } else if ScriptAt(a, 0) {
      var rest := a[|SCRIPT_OPEN|..];
      assert ScriptAt(a + b, 0);
      assert (a + b)[|SCRIPT_OPEN|..] == rest + b;
      StampConcat(rest, b, nonce);
      var head := SCRIPT_OPEN + NonceAttribute(nonce);
      assert head + (StampNonce(rest, nonce) + StampNonce(b, nonce))
          == (head + StampNonce(rest, nonce)) + StampNonce(b, nonce);
    } else {
      assert !ScriptAt(a + b, 0) by {
        if |a| < |SCRIPT_OPEN| {
          assert (a + b)[|a| - 1] == '>';
        }
      }
      assert (a + b)[1..] == a[1..] + b;
      StampConcat(a[1..], b, nonce);
      assert [a[0]] + (StampNonce(a[1..], nonce) + StampNonce(b, nonce))
          == ([a[0]] + StampNonce(a[1..], nonce)) + StampNonce(b, nonce);
    }
  }

  /** A '<'-free prefix of the stamped page is a prefix of the page. */
  lemma {:induction false} StampedPrefix(t: string, w: string, nonce: string)
    requires '<' !in w
    ensures w <= StampNonce(t, nonce) ==> w <= t
    decreases |t|
  {
    if w != [] && t != [] {
      if ScriptAt(t, 0) {
        assert StampNonce(t, nonce)[0] == '<';
        assert w[0] in w;
      } else {
        assert StampNonce(t, nonce) == [t[0]] + StampNonce(t[1..], nonce);
        assert '<' !in w[1..] by {
          assert forall c :: c in w[1..] ==> c in w;
        }
        StampedPrefix(t[1..], w[1..], nonce);
        if w <= StampNonce(t, nonce) {
          assert w[1..] <= StampNonce(t[1..], nonce);
          assert w == [w[0]] + w[1..];
        }
      }
    }
  }

  /** `<script` at the front of `c` + `tail`: `c` is '<' and `tail` starts "script". */
  lemma ScriptAtSplit(c: char, tail: string)
    ensures ScriptAt([c] + tail, 0) <==> c == '<' && "script" <= tail
  {
    var s := [c] + tail;
    if |tail| >= 6 {
      assert forall k :: 0 <= k < 6 ==> s[k + 1] == tail[k];
      if ScriptAt(s, 0) {
        assert tail[..6] == "script";
      }
    }
  }

  /** A page that does not start `<script` does not start it once stamped. */
  lemma StampKeepsNonScriptStart(html: string, nonce: string)
    requires html != [] && !ScriptAt(html, 0)
    ensures StampNonce(html, nonce) == [html[0]] + StampNonce(html[1..], nonce)
    ensures !ScriptAt(StampNonce(html, nonce), 0)
  {
    var tail := StampNonce(html[1..], nonce);
    assert html == [html[0]] + html[1..];
    ScriptAtSplit(html[0], html[1..]);
    ScriptAtSplit(html[0], tail);
    StampedPrefix(html[1..], "script", nonce);
  }

  /** Text without '<' adds no `<script` in front of a page. */
  lemma {:induction false} LtFreeScriptCount(p: string, t: string)
    requires '<' !in p
    ensures ScriptCount(p + t) == ScriptCount(t)
    decreases |p|
  {
    if p == [] {
      assert p + t == t;
    } else {
      assert (p + t)[0] == p[0];
      assert (p + t)[1..] == p[1..] + t;
      LtFreeScriptCount(p[1..], t);
    }
  }

  /** With a nonce free of '<', stamping keeps the number of scripts. */
  lemma {:induction false} StampKeepsScriptCount(html: string, nonce: string)
    requires '<' !in nonce
    ensures ScriptCount(StampNonce(html, nonce)) == ScriptCount(html)
    decreases |html|
  {
    if html == [] {
    } else if ScriptAt(html, 0) {
      var rest := html[|SCRIPT_OPEN|..];
      var tail := NonceAttribute(nonce) + StampNonce(rest, nonce);
      var out := SCRIPT_OPEN + tail;
      assert StampNonce(html, nonce) == out;
      assert ScriptAt(out, 0);
      assert out[|SCRIPT_OPEN|..] == tail;
      NonceAttributeLtFree(nonce);
      LtFreeScriptCount(NonceAttribute(nonce), StampNonce(rest, nonce));
      StampKeepsScriptCount(rest, nonce);
    } else {
      StampKeepsNonScriptStart(html, nonce);
      var out := StampNonce(html, nonce);
      assert out[1..] == StampNonce(html[1..], nonce);
      StampKeepsScriptCount(html[1..], nonce);
    }
  }

  /** Putting `p` in front of a page moves its occurrences by |p|. */
  lemma ShiftOccurrence(p: string, t: string, w: string, j: nat)
    ensures ScriptAt(p + t, |p| + j) <==> ScriptAt(t, j)
    ensures OccursAt(t, w, j) ==> OccursAt(p + t, w, |p| + j)
  {
    if j + |w| <= |t| {
      assert (p + t)[|p| + j..|p| + j + |w|] == t[j..j + |w|];
    }
  }

  /** A stamped `<script` in front of a page whose scripts carry the nonce
      gives a page whose scripts carry it. */
  lemma CarryNonceAfterHead(t: string, nonce: string)
    requires '<' !in nonce && ScriptsCarryNonce(t, nonce)
    ensures ScriptsCarryNonce((SCRIPT_OPEN + NonceAttribute(nonce)) + t, nonce)
  {
    var attr := NonceAttribute(nonce);
    var head := SCRIPT_OPEN + attr;
    var out := head + t;
    NonceAttributeLtFree(nonce);
    forall i: nat
      ensures ScriptAt(out, i) ==> OccursAt(out, attr, i + |SCRIPT_OPEN|)
    {
      if i == 0 {
        assert out[|SCRIPT_OPEN|..|SCRIPT_OPEN| + |attr|] == attr;
      } else if i < |SCRIPT_OPEN| {
        assert out[i] == SCRIPT_OPEN[i];
      } else if i < |head| {
        assert out[i] == attr[i - |SCRIPT_OPEN|];
      } else {
        ShiftOccurrence(head, t, attr, i - |head|);
        ShiftOccurrence(head, t, attr, i - |head| + |SCRIPT_OPEN|);
      }
    }
  }

  /** A character in front of a page whose scripts carry the nonce keeps
      that so, unless it starts a new `<script`. */
  lemma CarryNonceAfterChar(c: char, t: string, nonce: string)
    requires ScriptsCarryNonce(t, nonce) && !ScriptAt([c] + t, 0)
    ensures ScriptsCarryNonce([c] + t, nonce)
  {
    var out := [c] + t;
    forall i: nat
      ensures ScriptAt(out, i) ==> OccursAt(out, NonceAttribute(nonce), i + |SCRIPT_OPEN|)
    {
      if i > 0 {
        ShiftOccurrence([c], t, NonceAttribute(nonce), i - 1);
        ShiftOccurrence([c], t, NonceAttribute(nonce), i - 1 + |SCRIPT_OPEN|);
      }
    }
  }

  /** With a nonce free of '<', every `<script` of the stamped page carries
      the nonce. */
  lemma {:induction false} StampedScriptsCarryNonce(html: string, nonce: string)
    requires '<' !in nonce
    ensures ScriptsCarryNonce(StampNonce(html, nonce), nonce)
    decreases |html|
  {
    if html == [] {
    } else if ScriptAt(html, 0) {
      StampedScriptsCarryNonce(html[|SCRIPT_OPEN|..], nonce);
      CarryNonceAfterHead(StampNonce(html[|SCRIPT_OPEN|..], nonce), nonce);
    } else {
      StampKeepsNonScriptStart(html, nonce);
      StampedScriptsCarryNonce(html[1..], nonce);
      CarryNonceAfterChar(html[0], StampNonce(html[1..], nonce), nonce);
    }
  }

  // ---------------------------------------------------------------------
  // The whole rewrite

  /** `getHtmlContent`: the four steps in order, on the text of
      out/webview/index.html. `assetsUri` is the webview URI of the assets
      folder, `cspSource` the webview's CSP source, `nonce` what `getNonce`
      returned. */
  function HtmlContent(indexHtml: string, assetsUri: string, cspSource: string, nonce: string): string {
    var html := RewriteAssets(indexHtml, assetsUri);
    var html' := RemoveBaseTags(html);
    var html'' := AddCspMeta(html', cspSource, nonce);
    StampNonce(html'', nonce)
  }

  /** A character of the nonce alphabet: A-Z, a-z, 0-9. */
  predicate IsNonceChar(c: char) {
    'A' <= c <= 'Z' || 'a' <= c <= 'z' || '0' <= c <= '9'
  }

  predicate IsNonceText(s: string) {
    forall i :: 0 <= i < |s| ==> IsNonceChar(s[i])
  }

  lemma CspPolicyLtFree(cspSource: string, nonce: string)
    requires '<' !in cspSource && '<' !in nonce
    ensures '<' !in CspPolicy(cspSource, nonce)
  {
    assert '<' !in "default-src 'none'; " && '<' !in "style-src " && '<' !in " 'unsafe-inline'; ";
    assert '<' !in "script-src 'nonce-" && '<' !in "'; " && '<' !in "img-src " && '<' !in " https:;";
  }

  /** The meta tag's only '<' is its first character. */
  lemma CspMetaTagLtFree(cspSource: string, nonce: string)
    requires '<' !in cspSource && '<' !in nonce
    ensures |CspMetaTag(cspSource, nonce)| > 1 && CspMetaTag(cspSource, nonce)[1] == 'm'
    ensures '<' !in CspMetaTag(cspSource, nonce)[1..]
  {
    var policy := CspPolicy(cspSource, nonce);
    CspPolicyLtFree(cspSource, nonce);
    var after := " content=\"" + policy + "\">";
    assert '<' !in CSP_MARKER_NAME;
    assert '<' !in after;
    var tag := CspMetaTag(cspSource, nonce);
    var body := CSP_MARKER_NAME + after;
    assert tag == "<" + body;
    assert tag[1..] == body;
    assert body[0] == CSP_MARKER_NAME[0];
  }

  /** The meta tag goes through the stamping unchanged. */
  lemma StampCspMetaTag(cspSource: string, nonce: string)
    requires '<' !in cspSource && '<' !in nonce
    ensures StampNonce(CspMetaTag(cspSource, nonce), nonce) == CspMetaTag(cspSource, nonce)
  {
    var tag := CspMetaTag(cspSource, nonce);
    CspMetaTagLtFree(cspSource, nonce);
    assert !ScriptAt(tag, 0);
    StampLtFree(tag[1..], [], nonce);
    assert tag[1..] + [] == tag[1..];
    assert tag == [tag[0]] + tag[1..];
  }

  /** Stamping a page into which the meta tag was inserted after a '>'
      leaves the tag where it was put. */
  lemma StampAroundCsp(a: string, b: string, cspSource: string, nonce: string)
    requires a != [] && a[|a| - 1] == '>'
    requires '<' !in cspSource && '<' !in nonce
    ensures StampNonce(a + (CSP_INDENT + CspMetaTag(cspSource, nonce) + b), nonce)
         == StampNonce(a, nonce) + (CSP_INDENT + CspMetaTag(cspSource, nonce) + StampNonce(b, nonce))
  {
    var tag := CspMetaTag(cspSource, nonce);
    var m := CSP_INDENT + tag;
    StampConcat(a, m + b, nonce);
    assert m[|m| - 1] == '>';
    StampConcat(m, b, nonce);
    StampCspMetaTag(cspSource, nonce);
    StampLtFree(CSP_INDENT, tag, nonce);
  }

  /** Where the CSP step puts its tag: right after the first `<head>`,
      whose closing '>' ends the part before it. */
  lemma CspInsertShape(html: string, cspSource: string, nonce: string)
    requires !Includes(html, CSP_MARKER) && Includes(html, HEAD_OPEN)
    ensures var i := IndexOf(html, HEAD_OPEN).value;
      var a := html[..i + |HEAD_OPEN|];
      && a != [] && a[|a| - 1] == '>'
      && AddCspMeta(html, cspSource, nonce)
         == a + (CSP_INDENT + CspMetaTag(cspSource, nonce) + html[i + |HEAD_OPEN|..])
  {
    var i := IndexOf(html, HEAD_OPEN).value;
    assert html[i..i + |HEAD_OPEN|] == HEAD_OPEN;
    assert html[..i + |HEAD_OPEN|][i + |HEAD_OPEN| - 1] == html[i + |HEAD_OPEN| - 1];
    Regroup(html[..i + |HEAD_OPEN|], CSP_INDENT, CspMetaTag(cspSource, nonce), html[i + |HEAD_OPEN|..]);
  }

  lemma Regroup(a: string, m: string, t: string, b: string)
    ensures a + m + t + b == a + (m + t + b)
  {
  }

  /** When the CSP step inserts its tag, the tag survives the stamping. */
  lemma StampedCspPresent(html: string, cspSource: string, nonce: string)
    requires '<' !in cspSource && '<' !in nonce
    requires !Includes(html, CSP_MARKER) && Includes(html, HEAD_OPEN)
    ensures Includes(StampNonce(AddCspMeta(html, cspSource, nonce), nonce), CspMetaTag(cspSource, nonce))
  {
    var i := IndexOf(html, HEAD_OPEN).value;
    CspInsertShape(html, cspSource, nonce);
    StampedInsertKeepsTag(html[..i + |HEAD_OPEN|], html[i + |HEAD_OPEN|..], cspSource, nonce);
  }

  /** A meta tag put after a '>' is still there once the page is stamped. */
  lemma StampedInsertKeepsTag(a: string, b: string, cspSource: string, nonce: string)
    requires a != [] && a[|a| - 1] == '>'
    requires '<' !in cspSource && '<' !in nonce
    ensures Includes(StampNonce(a + (CSP_INDENT + CspMetaTag(cspSource, nonce) + b), nonce),
                     CspMetaTag(cspSource, nonce))
  {
    StampAroundCsp(a, b, cspSource, nonce);
    IncludedAfterIndent(StampNonce(a + (CSP_INDENT + CspMetaTag(cspSource, nonce) + b), nonce),
                        StampNonce(a, nonce), CspMetaTag(cspSource, nonce), StampNonce(b, nonce));
  }

  /** A page made of some text, the indent, `w` and more text includes `w`. */
  lemma IncludedAfterIndent(page: string, x: string, w: string, y: string)
    requires page == x + (CSP_INDENT + w + y)
    ensures Includes(page, w)
  {
    OccursAfterIndent(x, w, y);
    OccursIncludes(page, w, |x| + |CSP_INDENT|);
  }

  /** An occurrence anywhere makes `includes` true. */
  lemma OccursIncludes(s: string, pat: string, k: nat)
    requires OccursAt(s, pat, k)
    ensures Includes(s, pat)
  {
  }

  /** `w` occurs in `x + (CSP_INDENT + w + y)` right after `x` and the indent. */
  lemma OccursAfterIndent(x: string, w: string, y: string)
    ensures OccursAt(x + (CSP_INDENT + w + y), w, |x| + |CSP_INDENT|)
  {
    var out := x + (CSP_INDENT + w + y);
    var at := |x| + |CSP_INDENT|;
    assert out[at..at + |w|] == w;
  }

  /** The page handed to the webview: with a nonce from the nonce alphabet,
      every `<script` carries `nonce="N"`. When the page had no CSP meta tag
      but a `<head>`, it now holds the policy whose script source is the
      same `'nonce-N'`. */
  lemma HtmlContentNonce(indexHtml: string, assetsUri: string, cspSource: string, nonce: string)
    requires IsNonceText(nonce) && '<' !in cspSource
    ensures ScriptsCarryNonce(HtmlContent(indexHtml, assetsUri, cspSource, nonce), nonce)
    ensures var html := RemoveBaseTags(RewriteAssets(indexHtml, assetsUri));
      !Includes(html, CSP_MARKER) && Includes(html, HEAD_OPEN) ==>
        Includes(HtmlContent(indexHtml, assetsUri, cspSource, nonce), CspMetaTag(cspSource, nonce))
  {
    assert '<' !in nonce by {
      assert forall k :: 0 <= k < |nonce| ==> IsNonceChar(nonce[k]);
    }
    var html := RemoveBaseTags(RewriteAssets(indexHtml, assetsUri));
    StampedScriptsCarryNonce(AddCspMeta(html, cspSource, nonce), nonce);
    if !Includes(html, CSP_MARKER) && Includes(html, HEAD_OPEN) {
      StampedCspPresent(html, cspSource, nonce);
    }
  }

  // ---------------------------------------------------------------------
  // The nonce

  /** "ABCDEFGHIJKLMNOPQRSTUVWXYZabcdefghijklmnopqrstuvwxyz0123456789". */
  const NONCE_ALPHABET := "ABCDEFGHIJKLMNOPQRSTUVWXYZ" + "abcdefghijklmnopqrstuvwxyz" + "0123456789"
  const NONCE_LENGTH: nat := 32

  /** `possible.charAt(Math.floor(random * possible.length))` for a draw
      `random` in [0, 1). */
  function NonceCharFor(random: real): (c: char)
    requires 0.0 <= random < 1.0
    ensures IsNonceChar(c)
  {
    var k := (random * |NONCE_ALPHABET| as real).Floor;
    assert 0 <= k < |NONCE_ALPHABET|;
    AlphabetChars(k);
    NONCE_ALPHABET[k]
  }

  lemma AlphabetChars(k: int)
    requires 0 <= k < |NONCE_ALPHABET|
    ensures IsNonceChar(NONCE_ALPHABET[k])
  {
    var upper, lower, digits := "ABCDEFGHIJKLMNOPQRSTUVWXYZ", "abcdefghijklmnopqrstuvwxyz", "0123456789";
    if k < 26 {
      assert NONCE_ALPHABET[k] == upper[k];
    } else if k < 52 {
      assert NONCE_ALPHABET[k] == lower[k - 26];
    } else {
      assert NONCE_ALPHABET[k] == digits[k - 52];
    }
  }

  /** `getNonce`: 32 characters, the i-th chosen by the i-th of the 32 draws
      of `Math.random` (each in [0, 1)). */
  method GetNonce(draws: seq<real>) returns (text: string)
    requires |draws| == NONCE_LENGTH
    requires forall i :: 0 <= i < |draws| ==> 0.0 <= draws[i] < 1.0
    ensures |text| == NONCE_LENGTH
    ensures forall i :: 0 <= i < |text| ==> text[i] == NonceCharFor(draws[i])
    ensures IsNonceText(text)
  {
    text := "";
    for i := 0 to NONCE_LENGTH
      invariant |text| == i
      invariant forall k :: 0 <= k < i ==> text[k] == NonceCharFor(draws[k])
    {
      text := text + [NonceCharFor(draws[i])];
    }
  }
}
