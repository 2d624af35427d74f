/**
 * `plugins/gatsby-source-nav/gatsby-node.js`: the navigation trees the
 * documentation site's `nav` query resolves to.
 *
 * A nav (a `NavYaml` node or a generated nav) and a nav item are the same
 * kind of object here, so one `NavNode` datatype stands for both; absent
 * properties are `None`. The results of `nodeModel.findAll`/`findOne` are
 * input sequences, `createNodeId` is a function parameter, and
 * `localeCompare` is an abstract comparator.
 */
module SourceNav {
  import opened Base
  import opened Strings
  import opened Sequences
  import opened Grouping

  datatype NavNode = NavNode(
    id: Option<string>,
    title: Option<string>,
    path: Option<string>,
    url: Option<string>,
    category: Option<string>,
    filterable: Option<bool>,
    rootNav: bool,
    pages: Pages)

  /** A node's `pages` property: missing, or a list of child nodes. */
  datatype Pages = Missing | Listed(items: seq<NavNode>)

  /** An object literal `{title, url}` or `{title, url, pages}` built by the plugin. */
  function Item(title: Option<string>, url: Option<string>, pages: Pages): NavNode {
    NavNode(None, title, None, url, None, None, false, pages)
  }

  // ---------------------------------------------------------------------------
  // `findPage`

  /**
   * `findPage(page, path)`: `page` itself when its path matches; otherwise
   * the first CHILD whose subtree holds the path (`Array.find` returns the
   * element, not the deeper match); `null` when the node has no pages.
   */
  function FindPage(page: NavNode, p: string): Option<NavNode>
    decreases page, 1
  {
    if page.path == Some(p) then Some(page)
    else if page.pages.Missing? || |page.pages.items| == 0 then None
    else FindChild(page, p, 0)
  }

  /** The first child, from child `i` on, whose subtree holds the path, searched depth-first. */
  function FindChild(page: NavNode, p: string, i: nat): Option<NavNode>
    requires page.pages.Listed? && i <= |page.pages.items|
    decreases page, 0, |page.pages.items| - i
  {
    if i == |page.pages.items| then None
    else if FindPage(page.pages.items[i], p).Some? then Some(page.pages.items[i])
    else FindChild(page, p, i + 1)
  }

  /** Reference definition: some node of the subtree rooted at `n`, `n` included, has path `p`. */
  ghost predicate InSubtree(n: NavNode, p: string)
    decreases n
  {
    n.path == Some(p) ||
    (n.pages.Listed? && exists i :: 0 <= i < |n.pages.items| && InSubtree(n.pages.items[i], p))
  }

  /** The first child of `n` (from `i` on) whose subtree holds `p` is what `FindChild` returns. */
  ghost predicate FirstHolder(n: NavNode, p: string, i: nat, c: NavNode)
    requires n.pages.Listed?
  {
    exists k :: i <= k < |n.pages.items| && c == n.pages.items[k] && InSubtree(c, p) &&
      forall k' :: i <= k' < k ==> !InSubtree(n.pages.items[k'], p)
  }

  /**
   * `findPage` finds something exactly when the path is in the subtree; it
   * returns the node itself on a direct match and otherwise the first child
   * whose subtree holds the path.
   */
  lemma {:induction false} FindPageFinds(page: NavNode, p: string)
    ensures FindPage(page, p).Some? <==> InSubtree(page, p)
    ensures page.path == Some(p) ==> FindPage(page, p) == Some(page)
    ensures page.path != Some(p) && FindPage(page, p).Some? ==>
      page.pages.Listed? && FirstHolder(page, p, 0, FindPage(page, p).value)
    decreases page, 1
  {
    if page.path != Some(p) && page.pages.Listed? {
      FindChildFinds(page, p, 0);
    }
  }

  lemma {:induction false} FindChildFinds(page: NavNode, p: string, i: nat)
    requires page.pages.Listed? && i <= |page.pages.items|
    ensures FindChild(page, p, i).Some? <==> exists k :: i <= k < |page.pages.items| && InSubtree(page.pages.items[k], p)
    ensures FindChild(page, p, i).Some? ==> FirstHolder(page, p, i, FindChild(page, p, i).value)
    decreases page, 0, |page.pages.items| - i
  {
    var items := page.pages.items;
    if i < |items| {
      FindPageFinds(items[i], p);
      FindChildFinds(page, p, i + 1);
      if InSubtree(items[i], p) {
        assert FirstHolder(page, p, i, items[i]);
      } else if FindChild(page, p, i + 1).Some? {
        var c := FindChild(page, p, i + 1).value;
        var k :| i + 1 <= k < |items| && c == items[k] && InSubtree(c, p) &&
          forall k' :: i + 1 <= k' < k ==> !InSubtree(items[k'], p);
        assert FirstHolder(page, p, i, c);
      }
    }
  }

  // ---------------------------------------------------------------------------
  // `groupBy`

  function Identity<T>(x: T): T { x }

  /** `groupBy(arr, fn)`: a `Map` from each key to its items. */
  function NavGroupBy<T, K(==)>(arr: seq<T>, fn: T -> K): Groups<K, T> {
    GroupBy(arr, fn, Identity)
  }

  /** The keys of `groupBy` come in order of first occurrence, each once. */
  lemma {:induction false} NavGroupByOrder<T, K>(arr: seq<T>, fn: T -> K)
    ensures Keys(NavGroupBy(arr, fn)) == Dedupe(KeysOf(arr, fn))
  {
    GroupByKeys(arr, fn, Identity);
  }

  /** Each group of `groupBy` is its key's items in input order, and no item is lost. */
  lemma {:induction false} NavGroupByItems<T, K>(arr: seq<T>, fn: T -> K)
    ensures forall i :: 0 <= i < |NavGroupBy(arr, fn)| ==>
      NavGroupBy(arr, fn)[i].1 == Select(arr, fn, Identity, NavGroupBy(arr, fn)[i].0)
    ensures Size(NavGroupBy(arr, fn)) == |arr|
  {
    GroupByPartition(arr, fn, Identity);
  }

  // ---------------------------------------------------------------------------
  // The `nav` query and the sub-navs

  /** A `Locale` node. */
  datatype LocaleNode = LocaleNode(locale: string, isDefault: bool)

  /** The locale codes of the entries that are not the default locale, in order. */
  function NonDefaultLocales(entries: seq<LocaleNode>): (r: seq<string>)
    ensures forall l :: l in r <==> exists e :: e in entries && !e.isDefault && e.locale == l
  {
    if |entries| == 0 then []
    else
      var rest := NonDefaultLocales(entries[1..]);
      assert forall e :: e in entries <==> e == entries[0] || e in entries[1..];
      if entries[0].isDefault then rest else [entries[0].locale] + rest
  }

  predicate IsNonDefault(e: LocaleNode) { !e.isDefault }

  /** The locales are those of the non-default entries, in entry order. */
  lemma {:induction false} NonDefaultLocalesInOrder(entries: seq<LocaleNode>)
    ensures |NonDefaultLocales(entries)| == |Filter(entries, IsNonDefault)|
    ensures forall i :: 0 <= i < |NonDefaultLocales(entries)| ==>
      NonDefaultLocales(entries)[i] == Filter(entries, IsNonDefault)[i].locale
    decreases |entries|
  {
    if |entries| > 0 {
      NonDefaultLocalesInOrder(entries[1..]);
      var head: seq<string> := if IsNonDefault(entries[0]) then [entries[0].locale] else [];
      var kept: seq<LocaleNode> := if IsNonDefault(entries[0]) then [entries[0]] else [];
      assert NonDefaultLocales(entries) == head + NonDefaultLocales(entries[1..]);
      assert Filter(entries, IsNonDefault) == kept + Filter(entries[1..], IsNonDefault);
    }
  }

  /** The slugs the `nav` query answers with a sub-nav rather than the full nav. */
  predicate UsesSubNav(slug: string) {
    StartsWith(slug, "/docs/agile-handbook") || StartsWith(slug, "/docs/style-guide")
  }

  const TocSuffix := "/table-of-contents"

  /** The slug without a trailing `/table-of-contents`. */
  function StripToc(slug: string): (r: string)
    ensures EndsWith(slug, TocSuffix) ==> slug == r + TocSuffix
    ensures !EndsWith(slug, TocSuffix) ==> r == slug
  {
    if EndsWith(slug, TocSuffix) then slug[..|slug| - |TocSuffix|] else slug
  }

  /**
   * The alternatives of the locale pattern: the locales themselves, or, with
   * no locales, the empty group, which matches the empty string.
   */
  function Alternatives(locales: seq<string>): seq<string> {
    if |locales| == 0 then [""] else locales
  }

  /** `/l/` opens the slug. */
  predicate LocalePrefixed(slug: string, l: string) {
    StartsWith(slug, "/" + l + "/")
  }

  /** `alts[k]` is the first alternative that opens the slug as `/alts[k]/`. */
  predicate FirstPrefix(slug: string, alts: seq<string>, k: int) {
    0 <= k < |alts| && LocalePrefixed(slug, alts[k]) &&
    forall k' :: 0 <= k' < k ==> !LocalePrefixed(slug, alts[k'])
  }

  /**
   * Removal of a leading locale: drops `/l` for the first alternative `l`
   * (in list order) that opens the slug and is followed by a `/`.
   */
  function StripLocale(slug: string, locales: seq<string>): (r: string)
    ensures r == slug <==> forall k :: 0 <= k < |Alternatives(locales)| ==> !LocalePrefixed(slug, Alternatives(locales)[k])
    ensures r != slug ==>
      exists k :: FirstPrefix(slug, Alternatives(locales), k) && r == slug[|Alternatives(locales)[k]| + 1..]
  {
    var alts := Alternatives(locales);
    match FindIndex(alts, l => LocalePrefixed(slug, l))
    case Some(k) =>
      assert |slug[|alts[k]| + 1..]| < |slug|;
      slug[|alts[k]| + 1..]
    case None => slug
  }

  /** The slug `createSubNav` looks up. */
  function SubNavSlug(slug: string, locales: seq<string>): string {
    StripLocale(StripToc(slug), locales)
  }

  /** No non-default locale `l` opens `t` as `/l/`. */
  predicate NoLocalePrefix(t: string, entries: seq<LocaleNode>) {
    forall e :: e in entries && !e.isDefault ==> !LocalePrefixed(t, e.locale)
  }

  /** `r` is `t` with a leading `/l` dropped, for some non-default locale `l` that opens `t` as `/l/`. */
  ghost predicate DropsLocale(t: string, r: string, entries: seq<LocaleNode>) {
    exists e :: e in entries && !e.isDefault && LocalePrefixed(t, e.locale) && r == t[|e.locale| + 1..]
  }

  /**
   * The second step of the normalisation (`t` is the slug without its
   * `/table-of-contents`): a leading `/l` is dropped only when `l` is a
   * non-default locale followed by `/`; otherwise `t` is looked up unchanged.
   */
  lemma {:induction false} StripNonDefaultLocale(t: string, entries: seq<LocaleNode>)
    requires exists e :: e in entries && !e.isDefault
    ensures StripLocale(t, NonDefaultLocales(entries)) == t <==> NoLocalePrefix(t, entries)
    ensures StripLocale(t, NonDefaultLocales(entries)) != t ==>
      DropsLocale(t, StripLocale(t, NonDefaultLocales(entries)), entries)
  {
    var locales := NonDefaultLocales(entries);
    assert |locales| > 0 by {
      var e :| e in entries && !e.isDefault;
      assert e.locale in locales;
    }
    assert Alternatives(locales) == locales;
    var r := StripLocale(t, locales);
    if r != t {
      var k :| FirstPrefix(t, locales, k) && r == t[|locales[k]| + 1..];
      assert locales[k] in locales;
    }
    if r == t {
      forall e | e in entries && !e.isDefault
        ensures !LocalePrefixed(t, e.locale)
      {
        assert e.locale in locales;
        var k :| 0 <= k < |locales| && locales[k] == e.locale;
      }
    }
  }

  /**
   * The normalisation on its own: `/jp/docs/agile-handbook/table-of-contents`
   * would be looked up as `/docs/agile-handbook` when `jp` is not the default
   * locale. The dispatch never sends that slug here, though (see
   * `LocalizedSlugMissesSubNav`).
   */
  lemma SubNavSlugExample()
    ensures SubNavSlug("/jp/docs/agile-handbook/table-of-contents", ["jp"]) == "/docs/agile-handbook"
  {
    var slug := "/jp/docs/agile-handbook/table-of-contents";
    assert EndsWith(slug, TocSuffix);
    assert StripToc(slug) == "/jp/docs/agile-handbook";
    assert LocalePrefixed("/jp/docs/agile-handbook", "jp");
  }

  /** Both sub-nav prefixes open with `/docs/` followed by a letter. */
  lemma SubNavSlugShape(slug: string)
    requires UsesSubNav(slug)
    ensures |slug| >= 17 && slug[..6] == "/docs/" && (slug[6] == 'a' || slug[6] == 's')
  {
    if StartsWith(slug, "/docs/agile-handbook") {
      assert slug[..6] == slug[..20][..6];
      assert slug[6] == slug[..20][6];
    } else {
      assert slug[..6] == slug[..17][..6];
      assert slug[6] == slug[..17][6];
    }
  }

  /** Dropping `/table-of-contents` from a sub-nav slug keeps its `/docs/` opening. */
  lemma StripTocKeepsDocs(slug: string)
    requires UsesSubNav(slug)
    ensures |StripToc(slug)| >= 6 && StripToc(slug)[..6] == "/docs/"
  {
    SubNavSlugShape(slug);
    if EndsWith(slug, TocSuffix) {
      var o := |slug| - |TocSuffix|;
      assert slug[o + 1] == slug[o..][1] == TocSuffix[1] == 't';
      assert slug[1] == 'd' && slug[2] == 'o' && slug[3] == 'c' && slug[4] == 's' && slug[5] == '/' by {
        assert slug[..6] == "/docs/";
      }
      assert o >= 6;
      assert StripToc(slug)[..6] == slug[..6];
    }
  }

  /** `/l/` cannot open a slug starting with `/docs/` unless `l` is `docs` or holds a `/`. */
  lemma DocsSlugHasNoLocale(t: string, l: string)
    requires |t| >= 6 && t[..6] == "/docs/"
    requires l != "docs" && '/' !in l
    ensures !LocalePrefixed(t, l)
  {
    var p := "/" + l + "/";
    assert t[5] == '/' && t[1] != '/' && t[2] != '/' && t[3] != '/' && t[4] != '/' by {
      assert t[..6] == "/docs/";
    }
    if |p| <= |t| {
      if |l| < 4 {
        assert t[..|p|][|l| + 1] != p[|l| + 1];
      } else if |l| == 4 {
        assert p[1..5] == l;
        assert t[..6][1..5] == "docs";
        assert t[..|p|] != p;
      } else {
        assert p[5] == l[4];
        assert t[..|p|][5] != p[5];
      }
    }
  }

  /**
   * The locale strip of `createSubNav` is dead code: every slug dispatched
   * to it starts with `/docs/`, so unless some locale is `docs` or holds a
   * `/`, the slug looked up is the slug without its `/table-of-contents`.
   */
  lemma {:induction false} SubNavLocaleStripIsDead(slug: string, locales: seq<string>)
    requires UsesSubNav(slug)
    requires forall l :: l in locales ==> l != "docs" && '/' !in l
    ensures SubNavSlug(slug, locales) == StripToc(slug)
  {
    var t := StripToc(slug);
    StripTocKeepsDocs(slug);
    var alts := Alternatives(locales);
    forall k | 0 <= k < |alts|
      ensures !LocalePrefixed(t, alts[k])
    {
      if |locales| > 0 {
        assert alts[k] in locales;
      }
      DocsSlugHasNoLocale(t, alts[k]);
    }
  }

  /**
   * A localised page under a sub-nav prefix, `/l/docs/agile-handbook/...`
   * or `/l/docs/style-guide/...`, is not dispatched to `createSubNav`: the
   * dispatch tests the slug before any locale is removed.
   */
  lemma LocalizedSlugMissesSubNav(l: string, t: string)
    requires UsesSubNav(t)
    requires l != "docs" && '/' !in l
    ensures !UsesSubNav("/" + l + t)
  {
    var s := "/" + l + t;
    SubNavSlugShape(t);
    assert LocalePrefixed(s, l) by {
      assert s[..|l| + 2] == "/" + l + "/";
    }
    if UsesSubNav(s) {
      SubNavSlugShape(s);
      DocsSlugHasNoLocale(s, l);
      assert false;
    }
  }

  /** Prefixing a sub-nav slug with `/l` does not change what `/table-of-contents` removal cuts. */
  lemma LocalizedTocStrip(l: string, t: string)
    requires UsesSubNav(t)
    ensures StripToc("/" + l + t) == "/" + l + StripToc(t)
  {
    var pre := "/" + l;
    var s := pre + t;
    var n := |TocSuffix|;
    SubNavSlugShape(t);
    if |t| >= n {
      var k := |t| - n;
      assert s[|s| - n..] == t[k..];
      assert s[..|s| - n] == pre + t[..k];
      assert EndsWith(s, TocSuffix) == EndsWith(t, TocSuffix);
    } else {
      assert t[0] == t[..6][0] == '/';
      assert s[|s| - n..][1] == t[0];
      assert !EndsWith(s, TocSuffix);
    }
  }

  /** Two locales without `/` that both open a slug as `/l/` are the same locale. */
  lemma SameLocalePrefix(s: string, l: string, m: string)
    requires LocalePrefixed(s, l) && LocalePrefixed(s, m)
    requires '/' !in l && '/' !in m
    ensures l == m
  {
    var p, q := "/" + l + "/", "/" + m + "/";
    assert s[..|p|] == p && s[..|q|] == q;
    assert forall i :: 1 <= i <= |l| ==> s[i] == s[..|p|][i] == l[i - 1];
    assert forall i :: 1 <= i <= |m| ==> s[i] == s[..|q|][i] == m[i - 1];
    assert s[|l| + 1] == s[..|p|][|l| + 1] == '/';
    assert s[|m| + 1] == s[..|q|][|m| + 1] == '/';
    assert |l| == |m|;
    assert l == s[1..|l| + 1] == m;
  }

  /** A slug opened by a non-default locale `l` (when no locale holds a `/`) is stripped of exactly `/l`. */
  lemma StripOwnLocale(l: string, t: string, entries: seq<LocaleNode>)
    requires StartsWith(t, "/")
    requires LocaleNode(l, false) in entries
    requires forall e :: e in entries ==> '/' !in e.locale
    ensures StripLocale("/" + l + t, NonDefaultLocales(entries)) == t
  {
    var s := "/" + l + t;
    var locales := NonDefaultLocales(entries);
    assert l in locales;
    assert Alternatives(locales) == locales;
    assert LocalePrefixed(s, l) by {
      assert s[..|l| + 2] == "/" + l + "/";
    }
    var k :| 0 <= k < |locales| && locales[k] == l;
    var r := StripLocale(s, locales);
    assert r != s;
    var j :| FirstPrefix(s, locales, j) && r == s[|locales[j]| + 1..];
    assert locales[j] in locales;
    SameLocalePrefix(s, l, locales[j]);
    assert s[|l| + 1..] == t;
  }

  /** The non-root navs sorted by title: the candidates of `createSubNav`. */
  function SubNavCandidates(navs: seq<NavNode>, byTitle: (NavNode, NavNode) -> bool): (r: seq<NavNode>)
    ensures multiset(r) == multiset(Filter(navs, (n: NavNode) => !n.rootNav))
  {
    SortPermutes(Filter(navs, (n: NavNode) => !n.rootNav), byTitle);
    Sort(Filter(navs, (n: NavNode) => !n.rootNav), byTitle)
  }

  /** A copy of the nav with its `id` replaced by the node id made from its title. */
  function WithId(n: NavNode, createNodeId: Option<string> -> string): NavNode {
    n.(id := Some(createNodeId(n.title)))
  }

  /** The nav's `path` occurs in the slug; a missing path is searched as the text `undefined`. */
  predicate PathInSlug(slug: string, n: NavNode) {
    Includes(slug, JsStr(n.path))
  }

  /** `c[i]` is the first candidate whose tree holds the slug. */
  predicate FirstInTree(c: seq<NavNode>, s: string, i: int) {
    0 <= i < |c| && FindPage(c[i], s).Some? && forall k :: 0 <= k < i ==> FindPage(c[k], s).None?
  }

  /** `c[i]` is the first candidate whose `path` occurs in the slug. */
  predicate FirstByPath(c: seq<NavNode>, s: string, i: int) {
    0 <= i < |c| && PathInSlug(s, c[i]) && forall k :: 0 <= k < i ==> !PathInSlug(s, c[k])
  }

  /** No candidate holds the slug in its tree or has its `path` in it. */
  predicate NoCandidate(c: seq<NavNode>, s: string) {
    forall i :: 0 <= i < |c| ==> FindPage(c[i], s).None? && !PathInSlug(s, c[i])
  }

  /** The index of the nav `createSubNav` picks among the candidates. */
  function ChooseSubNav(c: seq<NavNode>, s: string): (r: Option<nat>)
    ensures r.Some? ==> r.value < |c|
    ensures r.None? <==> NoCandidate(c, s)
    ensures forall i :: FirstInTree(c, s, i) ==> r == Some(i)
    ensures (forall i :: 0 <= i < |c| ==> FindPage(c[i], s).None?) ==>
      forall i :: FirstByPath(c, s, i) ==> r == Some(i)
  {
    match FindIndex(c, n => FindPage(n, s).Some?)
    case Some(i) =>
      assert FirstInTree(c, s, i);
      Some(i)
    case None =>
      var r := FindIndex(c, n => PathInSlug(s, n));
      assert r.Some? ==> FirstByPath(c, s, r.value);
      r
  }

  /**
   * `createSubNav`: among the non-root navs sorted by title, the first one
   * whose tree holds the normalised slug; failing that, the first one whose
   * `path` is a substring of it; failing that, `null`. The chosen nav is
   * returned with its fields and a fresh `id`.
   */
  function CreateSubNav(slug: string, locales: seq<string>, navs: seq<NavNode>,
                        byTitle: (NavNode, NavNode) -> bool, createNodeId: Option<string> -> string)
    : (r: Option<NavNode>)
    ensures r.None? <==> NoCandidate(SubNavCandidates(navs, byTitle), SubNavSlug(slug, locales))
    ensures var s := SubNavSlug(slug, locales); var c := SubNavCandidates(navs, byTitle);
      forall i :: FirstInTree(c, s, i) ==> r == Some(WithId(c[i], createNodeId))
    ensures var s := SubNavSlug(slug, locales); var c := SubNavCandidates(navs, byTitle);
      (forall i :: 0 <= i < |c| ==> FindPage(c[i], s).None?) ==>
        forall i :: FirstByPath(c, s, i) ==> r == Some(WithId(c[i], createNodeId))
    ensures r.Some? ==> exists n :: n in navs && !n.rootNav && r.value == WithId(n, createNodeId)
  {
    var s := SubNavSlug(slug, locales);
    var c := SubNavCandidates(navs, byTitle);
    match ChooseSubNav(c, s)
    case Some(i) =>
      assert c[i] in multiset(c);
      assert c[i] in Filter(navs, (n: NavNode) => !n.rootNav);
      Some(WithId(c[i], createNodeId))
    case None => None
  }

  // ---------------------------------------------------------------------------
  // Field resolvers of `Nav` and `NavItem`

  /** `Nav.filterable`: the property when present, `true` when absent. */
  function ResolveFilterable(source: NavNode): (r: bool)
    ensures !r <==> source.filterable == Some(false)
  {
    if source.filterable.Some? then source.filterable.value else true
  }

  /** `url`: the source's `url` when truthy, else its `path`; an empty `url` falls through to `path`. */
  function ResolveUrl(source: NavNode): (r: Option<string>)
    ensures Truthy(source.url) ==> r == source.url
    ensures !Truthy(source.url) ==> r == source.path
    ensures Truthy(r) <==> Truthy(source.url) || Truthy(source.path)
  {
    if Truthy(source.url) then source.url else source.path
  }

  /** `NavItem.pages`: the source's pages, or an empty list when it has none. */
  function ResolvePages(source: NavNode): (r: seq<NavNode>)
    ensures source.pages.Listed? ==> r == source.pages.items
    ensures source.pages.Missing? ==> r == []
  {
    if source.pages.Listed? then source.pages.items else []
  }

  /** A `TranslatedNavJson` node. */
  datatype TranslatedNav = TranslatedNav(locale: string, englishTitle: Option<string>, title: Option<string>)

  /** A translation row for this locale whose English title is the source's title. */
  predicate Translates(t: TranslatedNav, locale: string, source: NavNode) {
    t.locale == locale && t.englishTitle == source.title
  }

  predicate FirstTranslation(translations: seq<TranslatedNav>, locale: string, source: NavNode, i: int) {
    0 <= i < |translations| && Translates(translations[i], locale, source) &&
    forall k :: 0 <= k < i ==> !Translates(translations[k], locale, source)
  }

  /** `findTranslatedTitle`: the source title for `en`; otherwise the first translation's title, if any. */
  function FindTranslatedTitle(source: NavNode, locale: string, translations: seq<TranslatedNav>): (r: Option<string>)
    ensures locale == "en" ==> r == source.title
    ensures locale != "en" ==> forall i :: FirstTranslation(translations, locale, source, i) ==> r == translations[i].title
    ensures (forall t :: t in translations ==> !Translates(t, locale, source)) ==> r == source.title
  {
    if locale == "en" then source.title
    else match Find(translations, (t: TranslatedNav) => Translates(t, locale, source))
      case Some(t) => t.title
      case None => source.title
  }

  // ---------------------------------------------------------------------------
  // Release notes

  /** A release-note post (`Mdx` node): its frontmatter and slug. */
  datatype Post = Post(subject: Option<string>, version: Option<string>, title: Option<string>, slug: Option<string>)

  /** A release-notes landing page: its subject and slug. */
  datatype LandingPage = LandingPage(subject: Option<string>, slug: Option<string>)

  function SubjectOf(p: Post): Option<string> { p.subject }

  /** Keeps the truthy strings (present and non-empty), unwrapped, in order. */
  function Truthies(xs: seq<Option<string>>): (r: seq<string>)
    ensures forall s :: s in r <==> s != "" && Some(s) in xs
  {
    if |xs| == 0 then []
    else
      var rest := Truthies(xs[1..]);
      assert forall x :: x in xs <==> x == xs[0] || x in xs[1..];
      if Truthy(xs[0]) then [xs[0].value] + rest else rest
  }

  /** The kept strings are the truthy entries themselves, in input order (`filter(Boolean)`). */
  lemma {:induction false} TruthiesInOrder(xs: seq<Option<string>>)
    ensures |Truthies(xs)| == |Filter(xs, Truthy)|
    ensures forall i :: 0 <= i < |Truthies(xs)| ==> Filter(xs, Truthy)[i] == Some(Truthies(xs)[i])
    decreases |xs|
  {
    if |xs| > 0 {
      var r, f := Truthies(xs), Filter(xs, Truthy);
      var r', f' := Truthies(xs[1..]), Filter(xs[1..], Truthy);
      TruthiesInOrder(xs[1..]);
      if Truthy(xs[0]) {
        assert r == [xs[0].value] + r' && f == [xs[0]] + f';
        forall i | 0 < i < |r|
          ensures f[i] == Some(r[i])
        {
          assert f[i] == f'[i - 1] && r[i] == r'[i - 1];
        }
      } else {
        assert r == r' && f == f';
      }
    }
  }

  lemma {:induction false} TruthiesDistinct(xs: seq<Option<string>>)
    requires Distinct(xs)
    ensures Distinct(Truthies(xs))
    decreases |xs|
  {
    if |xs| > 0 {
      assert Distinct(xs[1..]) by {
        forall i, j | 0 <= i < j < |xs[1..]| ensures xs[1..][i] != xs[1..][j] {
          assert xs[i + 1] != xs[j + 1];
        }
      }
      TruthiesDistinct(xs[1..]);
      if Truthy(xs[0]) {
        assert xs[0] !in xs[1..] by {
          forall j | 0 <= j < |xs[1..]| ensures xs[1..][j] != xs[0] {
            assert xs[0] != xs[j + 1];
          }
        }
      }
    }
  }

  lemma {:induction false} InsertDistinct<T>(x: T, xs: seq<T>, leq: (T, T) -> bool)
    requires Distinct(xs) && x !in xs
    ensures Distinct(Insert(x, xs, leq))
    decreases |xs|
  {
    if |xs| > 0 && !leq(x, xs[0]) {
      assert Distinct(xs[1..]) by {
        forall i, j | 0 <= i < j < |xs[1..]| ensures xs[1..][i] != xs[1..][j] {
          assert xs[i + 1] != xs[j + 1];
        }
      }
      InsertDistinct(x, xs[1..], leq);
      InsertPermutes(x, xs[1..], leq);
      var rest := Insert(x, xs[1..], leq);
      forall k | 0 <= k < |rest| ensures rest[k] != xs[0] {
        assert rest[k] in multiset(rest);
        if rest[k] != x {
          assert rest[k] in xs[1..];
          var j :| 0 <= j < |xs[1..]| && xs[1..][j] == rest[k];
          assert xs[j + 1] != xs[0];
        }
      }
    }
  }

  lemma {:induction false} SortDistinct<T>(xs: seq<T>, leq: (T, T) -> bool)
    requires Distinct(xs)
    ensures Distinct(Sort(xs, leq))
    decreases |xs|
  {
    if |xs| > 0 {
      assert Distinct(xs[1..]) by {
        forall i, j | 0 <= i < j < |xs[1..]| ensures xs[1..][i] != xs[1..][j] {
          assert xs[i + 1] != xs[j + 1];
        }
      }
      SortDistinct(xs[1..], leq);
      SortPermutes(xs[1..], leq);
      assert xs[0] !in multiset(xs[1..]) by {
        forall j | 0 <= j < |xs[1..]| ensures xs[1..][j] != xs[0] {
          assert xs[j + 1] != xs[0];
        }
      }
      InsertDistinct(xs[0], Sort(xs[1..], leq), leq);
    }
  }

  /**
   * The subjects of the release-notes nav: each post's subject once, in
   * order of first appearance, falsy ones dropped, then sorted.
   */
  function Subjects(posts: seq<Post>, bySubject: (string, string) -> bool): seq<string> {
    Sort(Truthies(Dedupe(KeysOf(posts, SubjectOf))), bySubject)
  }

  /** Subjects are distinct, are exactly the non-empty subjects of the posts, and follow the comparator. */
  lemma SubjectsSpec(posts: seq<Post>, bySubject: (string, string) -> bool)
    ensures Distinct(Subjects(posts, bySubject))
    ensures forall s :: s in Subjects(posts, bySubject) <==> s != "" && exists p :: p in posts && p.subject == Some(s)
    ensures TotalPreorder(bySubject) ==> SortedBy(Subjects(posts, bySubject), bySubject)
  {
    var keys := KeysOf(posts, SubjectOf);
    var t := Truthies(Dedupe(keys));
    TruthiesDistinct(Dedupe(keys));
    SortDistinct(t, bySubject);
    SortPermutes(t, bySubject);
    forall s ensures s in Subjects(posts, bySubject) <==> s != "" && exists p :: p in posts && p.subject == Some(s) {
      assert s in Subjects(posts, bySubject) <==> s in multiset(t);
      if s != "" && exists p :: p in posts && p.subject == Some(s) {
        var p :| p in posts && p.subject == Some(s);
        var j :| 0 <= j < |posts| && posts[j] == p;
        assert keys[j] == Some(s);
      }
      if s in t {
        assert Some(s) in Dedupe(keys);
        var j :| 0 <= j < |keys| && keys[j] == Some(s);
        assert posts[j].subject == Some(s);
      }
    }
    if TotalPreorder(bySubject) {
      SortSorted(t, bySubject);
    }
  }

  /** A post's nav title: `title` if truthy; else `subject v<version>` if the version is truthy; else `subject`. */
  function PostTitle(p: Post): Option<string> {
    if Truthy(p.title) then p.title
    else if Truthy(p.version) then Some(JsStr(p.subject) + " v" + p.version.value)
    else p.subject
  }

  function FormatPost(p: Post): NavNode {
    Item(PostTitle(p), p.slug, Listed([]))
  }

  function FormatPosts(posts: seq<Post>): (r: seq<NavNode>)
    ensures |r| == |posts|
    ensures forall j :: 0 <= j < |posts| ==> r[j] == FormatPost(posts[j])
  {
    seq(|posts|, j requires 0 <= j < |posts| => FormatPost(posts[j]))
  }

  /** The posts with the given subject, in order (`filterBySubject`). */
  function PostsAbout(subject: string, posts: seq<Post>): seq<Post> {
    Filter(posts, (p: Post) => p.subject == Some(subject))
  }

  /** The slug of the first landing page with this subject, when there is one. */
  function LandingUrl(subject: string, landing: seq<LandingPage>): Option<string> {
    match Find(landing, (lp: LandingPage) => lp.subject == Some(subject))
    case Some(lp) => lp.slug
    case None => None
  }

  function SubjectNav(subject: string, posts: seq<Post>, landing: seq<LandingPage>): NavNode {
    Item(Some(subject), LandingUrl(subject, landing), Listed(FormatPosts(PostsAbout(subject, posts))))
  }

  const ReleaseNotesOverview := Item(Some("Overview"), Some("/docs/release-notes"), Missing)

  /** The release-notes nav for the given subjects: an overview, then one entry per subject. */
  function ReleaseNotesNavFor(subjects: seq<string>, posts: seq<Post>, landing: seq<LandingPage>,
                              createNodeId: Option<string> -> string): (r: NavNode)
    ensures r.pages.Listed? && |r.pages.items| == 1 + |subjects|
    ensures r.pages.items[0] == ReleaseNotesOverview
    ensures forall i :: 0 <= i < |subjects| ==> r.pages.items[i + 1] == SubjectNav(subjects[i], posts, landing)
  {
    var navs := seq(|subjects|, i requires 0 <= i < |subjects| => SubjectNav(subjects[i], posts, landing));
    NavNode(Some(createNodeId(Some("release-notes"))), Some("Release Notes"), None, None, None, None, false,
            Listed([ReleaseNotesOverview] + navs))
  }

  /** `createReleaseNotesNav` once both queries returned. */
  function ReleaseNotesNav(posts: seq<Post>, landing: seq<LandingPage>, bySubject: (string, string) -> bool,
                           createNodeId: Option<string> -> string): NavNode
  {
    ReleaseNotesNavFor(Subjects(posts, bySubject), posts, landing, createNodeId)
  }

  /**
   * A subject's entry lists exactly that subject's posts in order, each
   * linking to the post and titled by its `title`, else `subject v<version>`,
   * else the subject.
   */
  lemma SubjectNavPages(subject: string, posts: seq<Post>, landing: seq<LandingPage>)
    ensures var n := SubjectNav(subject, posts, landing); var about := PostsAbout(subject, posts);
      && n.title == Some(subject)
      && n.pages.Listed? && |n.pages.items| == |about|
      && forall j :: 0 <= j < |about| ==>
           && about[j].subject == Some(subject)
           && n.pages.items[j].url == about[j].slug
           && n.pages.items[j].title ==
                (if Truthy(about[j].title) then about[j].title
                 else if Truthy(about[j].version) then Some(subject + " v" + about[j].version.value)
                 else Some(subject))
  {
  }

  /** Every post with a non-empty subject is listed under that subject's entry. */
  lemma ReleaseNotesCoverPosts(posts: seq<Post>, landing: seq<LandingPage>, bySubject: (string, string) -> bool,
                               createNodeId: Option<string> -> string)
    ensures var r := ReleaseNotesNav(posts, landing, bySubject, createNodeId); var subjects := Subjects(posts, bySubject);
      forall p :: p in posts && Truthy(p.subject) ==>
        exists i :: 0 <= i < |subjects| && subjects[i] == p.subject.value && FormatPost(p) in r.pages.items[i + 1].pages.items
  {
    var r := ReleaseNotesNav(posts, landing, bySubject, createNodeId);
    var subjects := Subjects(posts, bySubject);
    SubjectsSpec(posts, bySubject);
    forall p | p in posts && Truthy(p.subject)
      ensures exists i :: 0 <= i < |subjects| && subjects[i] == p.subject.value && FormatPost(p) in r.pages.items[i + 1].pages.items
    {
      var s := p.subject.value;
      assert s in subjects;
      var i :| 0 <= i < |subjects| && subjects[i] == s;
      var about := PostsAbout(s, posts);
      assert p in about;
      var j :| 0 <= j < |about| && about[j] == p;
      assert r.pages.items[i + 1] == SubjectNav(s, posts, landing);
      assert r.pages.items[i + 1].pages.items[j] == FormatPost(p);
    }
  }

  // ---------------------------------------------------------------------------
  // `createNav`

  datatype NavError = NoRootNav | RootWithoutPages | NoNavForCategory(category: string)

  /** A root item that is kept as it is: no path, an empty one, or one with a `/`. */
  predicate KeptAsIs(item: NavNode) {
    !Truthy(item.path) || Includes(item.path.value, "/")
  }

  /** An item naming a category that no nav has: the case where the resolver throws. */
  predicate Unresolved(item: NavNode, navs: seq<NavNode>) {
    !KeptAsIs(item) && item.path != Some("whats-new") && item.path != Some("release-notes") &&
    forall n :: n in navs ==> n.category != item.path
  }

  /** The first nav whose `category` is the item's path is `navs[k]`. */
  predicate FirstCategory(item: NavNode, navs: seq<NavNode>, k: int) {
    0 <= k < |navs| && navs[k].category == item.path &&
    forall k' :: 0 <= k' < k ==> navs[k'].category != item.path
  }

  /** What one root item becomes. */
  ghost predicate RewrittenAs(item: NavNode, navs: seq<NavNode>, whatsNew: NavNode, releaseNotes: NavNode, out: NavNode) {
    && (KeptAsIs(item) ==> out == item)
    && (!KeptAsIs(item) && item.path == Some("whats-new") ==> out == whatsNew)
    && (!KeptAsIs(item) && item.path == Some("release-notes") ==> out == releaseNotes)
    && (!KeptAsIs(item) && item.path != Some("whats-new") && item.path != Some("release-notes") ==>
          exists k :: FirstCategory(item, navs, k) && out == item.(pages := navs[k].pages))
  }

  /** The switch over one root nav item. */
  function RewriteItem(item: NavNode, navs: seq<NavNode>, whatsNew: NavNode, releaseNotes: NavNode)
    : Result<NavNode, NavError>
  {
    if KeptAsIs(item) then Ok(item)
    else if item.path == Some("whats-new") then Ok(whatsNew)
    else if item.path == Some("release-notes") then Ok(releaseNotes)
    else match Find(navs, (n: NavNode) => n.category == item.path)
      case Some(sub) => Ok(item.(pages := sub.pages))
      case None => Err(NoNavForCategory(item.path.value))
  }

  lemma RewriteItemCases(item: NavNode, navs: seq<NavNode>, whatsNew: NavNode, releaseNotes: NavNode)
    ensures RewriteItem(item, navs, whatsNew, releaseNotes).Err? <==> Unresolved(item, navs)
    ensures RewriteItem(item, navs, whatsNew, releaseNotes).Ok? ==>
      RewrittenAs(item, navs, whatsNew, releaseNotes, RewriteItem(item, navs, whatsNew, releaseNotes).value)
  {
    if !KeptAsIs(item) && item.path != Some("whats-new") && item.path != Some("release-notes") {
      match FindIndex(navs, (n: NavNode) => n.category == item.path)
      case Some(k) =>
        assert navs[k] in navs;
        assert FirstCategory(item, navs, k);
      case None =>
    }
  }

  /** Every root item rewritten in order, or the first failure. */
  function RewriteItems(items: seq<NavNode>, navs: seq<NavNode>, whatsNew: NavNode, releaseNotes: NavNode)
    : (r: Result<seq<NavNode>, NavError>)
    ensures r.Ok? <==> forall i :: 0 <= i < |items| ==> RewriteItem(items[i], navs, whatsNew, releaseNotes).Ok?
    ensures r.Ok? ==> |r.value| == |items|
    ensures r.Ok? ==> forall i :: 0 <= i < |items| ==> r.value[i] == RewriteItem(items[i], navs, whatsNew, releaseNotes).value
  {
    if |items| == 0 then Ok([])
    else match RewriteItem(items[0], navs, whatsNew, releaseNotes)
      case Err(e) => Err(e)
      case Ok(first) =>
        match RewriteItems(items[1..], navs, whatsNew, releaseNotes)
        case Err(e) => Err(e)
        case Ok(rest) => Ok([first] + rest)
  }

  /** Rewriting items only ever fails for a missing category. */
  lemma {:induction false} RewriteItemsErrors(items: seq<NavNode>, navs: seq<NavNode>, whatsNew: NavNode, releaseNotes: NavNode)
    ensures RewriteItems(items, navs, whatsNew, releaseNotes).Err? ==>
      RewriteItems(items, navs, whatsNew, releaseNotes).error.NoNavForCategory?
    decreases |items|
  {
    if |items| > 0 {
      RewriteItemsErrors(items[1..], navs, whatsNew, releaseNotes);
    }
  }

  /** No nav is titled `root`. */
  predicate NoRoot(navs: seq<NavNode>) {
    forall k :: 0 <= k < |navs| ==> navs[k].title != Some("root")
  }

  /** `navs[k]` is the first nav titled `root`: the one `createNav` builds on. */
  predicate FirstRoot(navs: seq<NavNode>, k: int) {
    0 <= k < |navs| && navs[k].title == Some("root") &&
    forall k' :: 0 <= k' < k ==> navs[k'].title != Some("root")
  }

  /**
   * `createNav` once the navs and the generated what's-new and release-notes
   * navs are known. Without a root nav, or with a root nav that has no
   * `pages`, the resolver throws; otherwise the result is the root nav, every
   * other property kept, with new `pages` and `id`.
   */
  function CreateNav(navs: seq<NavNode>, whatsNew: NavNode, releaseNotes: NavNode, createNodeId: Option<string> -> string)
    : (r: Result<NavNode, NavError>)
    ensures r == Err(NoRootNav) <==> NoRoot(navs)
    ensures forall k :: FirstRoot(navs, k) ==> (r == Err(RootWithoutPages) <==> navs[k].pages.Missing?)
    ensures forall k :: FirstRoot(navs, k) && r.Ok? ==>
      r.value.pages.Listed? && r.value == navs[k].(pages := Listed(r.value.pages.items), id := Some(createNodeId(Some("root"))))
  {
    match FindIndex(navs, (n: NavNode) => n.title == Some("root"))
    case None => Err(NoRootNav)
    case Some(i) =>
      var root := navs[i];
      if root.pages.Missing? then Err(RootWithoutPages)
      else match RewriteItems(root.pages.items, navs, whatsNew, releaseNotes)
        case Err(e) =>
          assert e != NoRootNav && e != RootWithoutPages by {
            RewriteItemsErrors(root.pages.items, navs, whatsNew, releaseNotes);
          }
          Err(e)
        case Ok(items) => Ok(root.(pages := Listed(items), id := Some(createNodeId(root.title))))
  }

  /**
   * The full nav is the first nav titled `root`, every other property kept,
   * with its id replaced and as many items as before: items without a path,
   * with an empty one or one containing `/` are kept; `whats-new` and
   * `release-notes` become the generated navs; any other item takes the
   * `pages` of the first nav whose `category` is its path, and when there is
   * none the resolver throws.
   */
  lemma CreateNavRootPages(navs: seq<NavNode>, whatsNew: NavNode, releaseNotes: NavNode,
                           createNodeId: Option<string> -> string, r: int)
    requires FirstRoot(navs, r) && navs[r].pages.Listed?
    ensures var root := navs[r]; var items := root.pages.items;
      var res := CreateNav(navs, whatsNew, releaseNotes, createNodeId);
      && (res.Err? <==> exists i :: 0 <= i < |items| && Unresolved(items[i], navs))
      && (res.Ok? ==>
            && res.value.pages.Listed?
            && res.value == root.(pages := Listed(res.value.pages.items), id := Some(createNodeId(Some("root"))))
            && |res.value.pages.items| == |items|
            && forall i :: 0 <= i < |items| ==> RewrittenAs(items[i], navs, whatsNew, releaseNotes, res.value.pages.items[i]))
  {
    var items := navs[r].pages.items;
    assert FindIndex(navs, (n: NavNode) => n.title == Some("root")) == Some(r);
    forall i | 0 <= i < |items|
      ensures RewriteItem(items[i], navs, whatsNew, releaseNotes).Err? <==> Unresolved(items[i], navs)
      ensures RewriteItem(items[i], navs, whatsNew, releaseNotes).Ok? ==>
        RewrittenAs(items[i], navs, whatsNew, releaseNotes, RewriteItem(items[i], navs, whatsNew, releaseNotes).value)
    {
      RewriteItemCases(items[i], navs, whatsNew, releaseNotes);
    }
  }

  // ---------------------------------------------------------------------------
  // Dispatch of the `nav` query, and `onCreatePage`

  /** What the `nav` resolver reads besides the slug. */
  datatype NavSources = NavSources(
    locales: seq<LocaleNode>,
    navs: seq<NavNode>,
    whatsNew: NavNode,
    posts: seq<Post>,
    landing: seq<LandingPage>,
    byTitle: (NavNode, NavNode) -> bool,
    bySubject: (string, string) -> bool,
    createNodeId: Option<string> -> string)

  /** The release-notes nav the resolver builds from its sources. */
  function ReleaseNotesOf(src: NavSources): NavNode {
    ReleaseNotesNav(src.posts, src.landing, src.bySubject, src.createNodeId)
  }

  /** The `createNav` branch of the resolver: the full nav, or the error it throws. */
  function FullNav(src: NavSources): (r: Result<Option<NavNode>, NavError>)
    ensures r.Err? <==> CreateNav(src.navs, src.whatsNew, ReleaseNotesOf(src), src.createNodeId).Err?
    ensures r.Err? ==> r.error == CreateNav(src.navs, src.whatsNew, ReleaseNotesOf(src), src.createNodeId).error
    ensures r.Ok? ==> r.value == Some(CreateNav(src.navs, src.whatsNew, ReleaseNotesOf(src), src.createNodeId).value)
  {
    match CreateNav(src.navs, src.whatsNew, ReleaseNotesOf(src), src.createNodeId)
    case Err(e) => Err(e)
    case Ok(nav) => Ok(Some(nav))
  }

  /**
   * The `nav` query: slugs under `/docs/agile-handbook` or
   * `/docs/style-guide` get `createSubNav` (a non-root sub-nav or `null`);
   * every other slug gets `createNav` (the full nav built around the root
   * nav, or a thrown error).
   */
  function ResolveNav(slug: string, src: NavSources): (r: Result<Option<NavNode>, NavError>)
    ensures UsesSubNav(slug) ==>
      r == Ok(CreateSubNav(slug, NonDefaultLocales(src.locales), src.navs, src.byTitle, src.createNodeId))
    ensures !UsesSubNav(slug) ==>
      && (r.Err? <==> CreateNav(src.navs, src.whatsNew, ReleaseNotesOf(src), src.createNodeId).Err?)
      && (r.Err? ==> r.error == CreateNav(src.navs, src.whatsNew, ReleaseNotesOf(src), src.createNodeId).error)
      && (r.Ok? ==> r.value == Some(CreateNav(src.navs, src.whatsNew, ReleaseNotesOf(src), src.createNodeId).value))
  {
    if UsesSubNav(slug) then
      Ok(CreateSubNav(slug, NonDefaultLocales(src.locales), src.navs, src.byTitle, src.createNodeId))
    else
      FullNav(src)
  }

  /**
   * What the resolver answers, in terms of the navs: a sub-nav slug gets
   * `null` exactly when no candidate holds it, and otherwise some non-root
   * nav with its id replaced; any other slug fails for a missing root nav,
   * a root nav without `pages` or a root item naming an unknown category,
   * and otherwise gets the root nav with its items rewritten.
   */
  lemma ResolveNavOutcomes(slug: string, src: NavSources, k: int)
    requires FirstRoot(src.navs, k) || (NoRoot(src.navs) && k == -1)
    ensures var r := ResolveNav(slug, src);
      && (UsesSubNav(slug) ==> r.Ok?)
      && (UsesSubNav(slug) ==> (r.value.None? <==>
            NoCandidate(SubNavCandidates(src.navs, src.byTitle), SubNavSlug(slug, NonDefaultLocales(src.locales)))))
      && (UsesSubNav(slug) && r.value.Some? ==>
            exists n :: n in src.navs && !n.rootNav && r.value.value == WithId(n, src.createNodeId))
    ensures var r := ResolveNav(slug, src);
      && (!UsesSubNav(slug) && k == -1 ==> r == Err(NoRootNav))
      && (!UsesSubNav(slug) && k >= 0 && src.navs[k].pages.Missing? ==> r == Err(RootWithoutPages))
      && (!UsesSubNav(slug) && k >= 0 && src.navs[k].pages.Listed? ==>
            && (r.Err? <==> exists i :: 0 <= i < |src.navs[k].pages.items| && Unresolved(src.navs[k].pages.items[i], src.navs))
            && (r.Ok? ==>
                  && r.value.Some? && r.value.value.title == Some("root")
                  && |r.value.value.pages.items| == |src.navs[k].pages.items|))
  {
    if !UsesSubNav(slug) && k >= 0 && src.navs[k].pages.Listed? {
      CreateNavRootPages(src.navs, src.whatsNew, ReleaseNotesOf(src), src.createNodeId, k);
    }
  }

  /**
   * The dispatch as evidently intended: the sub-nav prefixes are matched against
   * the slug without its non-default locale, so that localised sub-nav pages
   * reach `createSubNav` and its locale strip applies.
   */
  function ResolveNavLocalized(slug: string, src: NavSources): (r: Result<Option<NavNode>, NavError>)
    ensures UsesSubNav(StripLocale(slug, NonDefaultLocales(src.locales))) ==>
      r == Ok(CreateSubNav(slug, NonDefaultLocales(src.locales), src.navs, src.byTitle, src.createNodeId))
    ensures !UsesSubNav(StripLocale(slug, NonDefaultLocales(src.locales))) ==> r == FullNav(src)
  {
    if UsesSubNav(StripLocale(slug, NonDefaultLocales(src.locales))) then
      Ok(CreateSubNav(slug, NonDefaultLocales(src.locales), src.navs, src.byTitle, src.createNodeId))
    else
      FullNav(src)
  }

  /** A localised sub-nav slug is looked up exactly as its unlocalised form. */
  lemma LocalizedSubNavSlug(l: string, t: string, entries: seq<LocaleNode>)
    requires UsesSubNav(t)
    requires LocaleNode(l, false) in entries
    requires forall e :: e in entries ==> '/' !in e.locale && e.locale != "docs"
    ensures SubNavSlug("/" + l + t, NonDefaultLocales(entries)) == SubNavSlug(t, NonDefaultLocales(entries))
  {
    var locales := NonDefaultLocales(entries);
    var u := StripToc(t);
    LocalizedTocStrip(l, t);
    StripTocKeepsDocs(t);
    assert StartsWith(u, "/") by {
      assert u[..1] == u[..6][..1];
    }
    StripOwnLocale(l, u, entries);
    forall m | m in locales
      ensures m != "docs" && '/' !in m
    {
      var e :| e in entries && !e.isDefault && e.locale == m;
    }
    SubNavLocaleStripIsDead(t, locales);
  }

  /**
   * With the intended dispatch, a page under a sub-nav prefix gets the same
   * sub-nav in every non-default locale as it does unlocalised (locales
   * holding no `/` and none named `docs`).
   */
  lemma LocalizedSlugGetsSubNav(l: string, t: string, src: NavSources)
    requires UsesSubNav(t)
    requires LocaleNode(l, false) in src.locales
    requires forall e :: e in src.locales ==> '/' !in e.locale && e.locale != "docs"
    ensures ResolveNavLocalized("/" + l + t, src) == ResolveNav(t, src)
  {
    SubNavSlugShape(t);
    assert StartsWith(t, "/") by {
      assert t[..1] == t[..6][..1];
    }
    StripOwnLocale(l, t, src.locales);
    LocalizedSubNavSlug(l, t, src.locales);
  }

  /** A page as `onCreatePage` sees it: its path and its context's `slug`. */
  datatype SitePage = SitePage(path: string, contextSlug: Option<string>)

  /**
   * `onCreatePage`: a page whose context has no truthy slug is re-created
   * with `slug` set to its path; any other page is left alone (`None`:
   * `createPage` is not called).
   */
  function OnCreatePage(page: SitePage): (r: Option<SitePage>)
    ensures r.Some? <==> !Truthy(page.contextSlug)
    ensures r.Some? ==> r.value.path == page.path && r.value.contextSlug == Some(page.path)
  {
    if !Truthy(page.contextSlug) then Some(page.(contextSlug := Some(page.path))) else None
  }
}
