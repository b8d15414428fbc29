/**
 * Controllers/SitemapController.cs: the URL slug of a product name and the
 * list of URL entries the sitemap is made of.
 */
module Sitemap {
  import opened Wrappers
  import opened Text
  import opened Entities

  // ---------------------------------------------------------------------------
  // GenerateSlug, one function per step of the source's chain
  // ---------------------------------------------------------------------------

  /** The five accent-folding replacements `[áàäâ]`→a, `[éèëê]`→e, `[íìïî]`→i,
      `[óòöőô]`→o, `[úùüűû]`→u, applied to one character. */
  function FoldAccent(c: char): char {
    if c in "áàäâ" then 'a'
    else if c in "éèëê" then 'e'
    else if c in "íìïî" then 'i'
    else if c in "óòöőô" then 'o'
    else if c in "úùüűû" then 'u'
    else c
  }

  function FoldAccents(s: string): string {
    seq(|s|, i requires 0 <= i < |s| => FoldAccent(s[i]))
  }

  /** The class `[a-z0-9\s-]` that survives the filter. */
  predicate IsKept(c: char) {
    IsAsciiLower(c) || IsAsciiDigit(c) || IsWhiteSpace(c) || c == '-'
  }

  /** The characters a finished slug is made of. */
  predicate IsSlugChar(c: char) {
    IsAsciiLower(c) || IsAsciiDigit(c) || c == '-'
  }

  predicate AllKept(s: string) {
    forall i :: 0 <= i < |s| ==> IsKept(s[i])
  }

  predicate AllSlugChars(s: string) {
    forall i :: 0 <= i < |s| ==> IsSlugChar(s[i])
  }

  /** No letter or digit anywhere. */
  predicate NoAlnum(s: string) {
    forall i :: 0 <= i < |s| ==> !IsAsciiLower(s[i]) && !IsAsciiDigit(s[i])
  }

  predicate NoDoubleHyphen(s: string) {
    forall i :: 0 <= i < |s| - 1 ==> !(s[i] == '-' && s[i + 1] == '-')
  }

  /** What the source's output promises: slug characters only, no `--`, and no
      hyphen at either end. */
  predicate IsSlugShaped(s: string) {
    AllSlugChars(s) && NoDoubleHyphen(s) && (|s| > 0 ==> s[0] != '-' && s[|s| - 1] != '-')
  }

  /** `Regex.Replace(slug, @"[^a-z0-9\s-]", "")`. */
  function RemoveDisallowed(s: string): string {
    if |s| == 0 then ""
    else if IsKept(s[0]) then [s[0]] + RemoveDisallowed(s[1..])
    else RemoveDisallowed(s[1..])
  }

  /** The filter keeps only the class, never lengthens, brings in no letter
      or digit, and leaves a string of the class as it is. */
  lemma {:induction false} RemoveDisallowedFacts(s: string)
    ensures var r := RemoveDisallowed(s);
      AllKept(r) && |r| <= |s| && (NoAlnum(s) ==> NoAlnum(r)) && (AllKept(s) ==> r == s)
  {
    if |s| > 0 {
      RemoveDisallowedFacts(s[1..]);
    }
  }

  function DropLeadingWhitespace(s: string): (r: string)
    ensures |r| <= |s|
  {
    if |s| > 0 && IsWhiteSpace(s[0]) then DropLeadingWhitespace(s[1..]) else s
  }

  lemma {:induction false} DropLeadingWhitespaceFacts(s: string)
    ensures var r := DropLeadingWhitespace(s);
      r == s[|s| - |r|..] && (|r| > 0 ==> !IsWhiteSpace(r[0]))
  {
    if |s| > 0 && IsWhiteSpace(s[0]) {
      DropLeadingWhitespaceFacts(s[1..]);
    }
  }

  /** `Regex.Replace(slug, @"\s+", "-")`: each run of white space becomes one hyphen. */
  function HyphenateWhitespace(s: string): string
    decreases |s|
  {
    if |s| == 0 then ""
    else if IsWhiteSpace(s[0]) then "-" + HyphenateWhitespace(DropLeadingWhitespace(s[1..]))
    else [s[0]] + HyphenateWhitespace(s[1..])
  }

  /** Hyphenating turns the filtered characters into slug characters and
      brings in no letter or digit. */
  lemma {:induction false} HyphenateWhitespaceChars(s: string)
    ensures AllKept(s) ==> AllSlugChars(HyphenateWhitespace(s))
    ensures NoAlnum(s) ==> NoAlnum(HyphenateWhitespace(s))
    decreases |s|
  {
    if |s| > 0 {
      if IsWhiteSpace(s[0]) {
        var rest := DropLeadingWhitespace(s[1..]);
        DropLeadingWhitespaceFacts(s[1..]);
        SuffixClasses(s, |s| - |rest|);
        HyphenateWhitespaceChars(rest);
        ConcatClasses("-", HyphenateWhitespace(rest));
      } else {
        SuffixClasses(s, 1);
        HyphenateWhitespaceChars(s[1..]);
        ConcatClasses([s[0]], HyphenateWhitespace(s[1..]));
      }
    }
  }

  lemma SuffixClasses(s: string, k: nat)
    requires k <= |s|
    ensures AllKept(s) ==> AllKept(s[k..])
    ensures AllSlugChars(s) ==> AllSlugChars(s[k..])
    ensures NoAlnum(s) ==> NoAlnum(s[k..])
  {
    assert forall i :: 0 <= i < |s| - k ==> s[k..][i] == s[k + i];
  }

  lemma ConcatClasses(a: string, b: string)
    ensures AllSlugChars(a) && AllSlugChars(b) ==> AllSlugChars(a + b)
    ensures NoAlnum(a) && NoAlnum(b) ==> NoAlnum(a + b)
  {
    assert forall i :: |a| <= i < |a + b| ==> (a + b)[i] == b[i - |a|];
  }

  /** A string without white space is left as it is. */
  lemma {:induction false} HyphenateWhitespaceFixes(s: string)
    requires forall i :: 0 <= i < |s| ==> !IsWhiteSpace(s[i])
    ensures HyphenateWhitespace(s) == s
    decreases |s|
  {
    if |s| > 0 {
      HyphenateWhitespaceFixes(s[1..]);
    }
  }

  function DropLeadingHyphens(s: string): (r: string)
    ensures |r| <= |s|
  {
    if |s| > 0 && s[0] == '-' then DropLeadingHyphens(s[1..]) else s
  }

  lemma {:induction false} DropLeadingHyphensFacts(s: string)
    ensures var r := DropLeadingHyphens(s);
      r == s[|s| - |r|..] && (|r| > 0 ==> r[0] != '-')
  {
    if |s| > 0 && s[0] == '-' {
      DropLeadingHyphensFacts(s[1..]);
    }
  }

  /** `Regex.Replace(slug, @"-+", "-")`: each run of hyphens becomes one hyphen. */
  function CollapseHyphens(s: string): string
    decreases |s|
  {
    if |s| == 0 then ""
    else if s[0] == '-' then "-" + CollapseHyphens(DropLeadingHyphens(s[1..]))
    else [s[0]] + CollapseHyphens(s[1..])
  }

  /** After collapsing there are no two hyphens in a row, and the result
      starts with a hyphen only if the input did. */
  lemma {:induction false} CollapseHyphensShape(s: string)
    ensures var r := CollapseHyphens(s);
      NoDoubleHyphen(r) && (|r| > 0 && r[0] == '-' ==> |s| > 0 && s[0] == '-')
    decreases |s|
  {
    if |s| > 0 {
      if s[0] == '-' {
        DropLeadingHyphensFacts(s[1..]);
        CollapseHyphensShape(DropLeadingHyphens(s[1..]));
      } else {
        CollapseHyphensShape(s[1..]);
      }
    }
  }

  /** Collapsing brings in no character other than a hyphen. */
  lemma {:induction false} CollapseHyphensChars(s: string)
    ensures AllSlugChars(s) ==> AllSlugChars(CollapseHyphens(s))
    ensures NoAlnum(s) ==> NoAlnum(CollapseHyphens(s))
    decreases |s|
  {
    if |s| > 0 {
      if s[0] == '-' {
        DropLeadingHyphensFacts(s[1..]);
        var rest := DropLeadingHyphens(s[1..]);
        SuffixClasses(s, |s| - |rest|);
        CollapseHyphensChars(rest);
        ConcatClasses("-", CollapseHyphens(rest));
      } else {
        SuffixClasses(s, 1);
        CollapseHyphensChars(s[1..]);
        ConcatClasses([s[0]], CollapseHyphens(s[1..]));
      }
    }
  }

  /** A string with no run of hyphens is left as it is. */
  lemma {:induction false} CollapseHyphensFixes(s: string)
    requires NoDoubleHyphen(s)
    ensures CollapseHyphens(s) == s
    decreases |s|
  {
    if |s| > 0 {
      if s[0] == '-' {
        assert DropLeadingHyphens(s[1..]) == s[1..];
        CollapseHyphensFixes(s[1..]);
      } else {
        CollapseHyphensFixes(s[1..]);
      }
    }
  }

  function TrimStartHyphens(s: string): string {
    if |s| > 0 && s[0] == '-' then TrimStartHyphens(s[1..]) else s
  }

  function TrimEndHyphens(s: string): string {
    if |s| > 0 && s[|s| - 1] == '-' then TrimEndHyphens(s[..|s| - 1]) else s
  }

  /** Trimming the front leaves a suffix that does not start with a hyphen,
      and leaves alone a string that does not. */
  lemma {:induction false} TrimStartFacts(s: string)
    ensures var r := TrimStartHyphens(s);
      |r| <= |s| && r == s[|s| - |r|..] && (|r| > 0 ==> r[0] != '-') &&
      ((|s| > 0 ==> s[0] != '-') ==> r == s)
  {
    if |s| > 0 && s[0] == '-' {
      TrimStartFacts(s[1..]);
      var r := TrimStartHyphens(s);
      assert s[1..][|s| - 1 - |r|..] == s[|s| - |r|..];
    }
  }

  /** Trimming the end leaves a prefix that does not end with a hyphen, and
      leaves alone a string that does not. */
  lemma {:induction false} TrimEndFacts(s: string)
    ensures var r := TrimEndHyphens(s);
      |r| <= |s| && r == s[..|r|] && (|r| > 0 ==> r[|r| - 1] != '-') &&
      ((|s| > 0 ==> s[|s| - 1] != '-') ==> r == s)
  {
    if |s| > 0 && s[|s| - 1] == '-' {
      TrimEndFacts(s[..|s| - 1]);
      var r := TrimEndHyphens(s);
      assert s[..|s| - 1][..|r|] == s[..|r|];
    }
  }

  /** `slug.Trim('-')`. */
  function TrimHyphens(s: string): string {
    TrimEndHyphens(TrimStartHyphens(s))
  }

  const FallbackSlug: string := "product"

  /** The URL-friendly form of a product name. */
  function GenerateSlug(name: string): string {
    if IsBlank(name) then FallbackSlug
    else TrimHyphens(CollapseHyphens(HyphenateWhitespace(RemoveDisallowed(FoldAccents(Lower(name))))))
  }

  // ---------------------------------------------------------------------------
  // Properties of GenerateSlug
  // ---------------------------------------------------------------------------

  lemma SliceKeepsShape(s: string, lo: int, hi: int)
    requires 0 <= lo <= hi <= |s|
    requires AllSlugChars(s) && NoDoubleHyphen(s)
    ensures AllSlugChars(s[lo..hi]) && NoDoubleHyphen(s[lo..hi])
  {
    var t := s[lo..hi];
    assert forall i :: 0 <= i < |t| ==> t[i] == s[lo + i];
  }

  /** Trimming a string of slug characters without runs of hyphens leaves it
      slug-shaped. */
  lemma TrimKeepsShape(s: string)
    requires AllSlugChars(s) && NoDoubleHyphen(s)
    ensures IsSlugShaped(TrimHyphens(s))
  {
    var a := TrimStartHyphens(s);
    TrimStartFacts(s);
    SliceKeepsShape(s, |s| - |a|, |s|);
    var b := TrimEndHyphens(a);
    TrimEndFacts(a);
    SliceKeepsShape(a, 0, |b|);
    assert |b| > 0 ==> b[0] == a[0];
  }

  /** Trimming leaves alone a string with no hyphen at either end. */
  lemma TrimHyphensFixes(s: string)
    requires |s| > 0 ==> s[0] != '-' && s[|s| - 1] != '-'
    ensures TrimHyphens(s) == s
  {
    TrimStartFacts(s);
    TrimEndFacts(s);
  }

  /** Trimming a string made only of hyphens leaves nothing. */
  lemma TrimHyphensOnly(s: string)
    requires AllSlugChars(s) && NoAlnum(s)
    ensures TrimHyphens(s) == ""
  {
    TrimStartFacts(s);
    TrimEndFacts(TrimStartHyphens(s));
  }

  /** The output is always slug-shaped: only `a-z`, `0-9` and `-`, no two
      hyphens in a row, no hyphen at either end. A blank name gives the
      fallback slug. */
  lemma GenerateSlugShape(name: string)
    ensures IsSlugShaped(GenerateSlug(name))
    ensures IsBlank(name) ==> GenerateSlug(name) == "product"
  {
    if !IsBlank(name) {
      var kept := RemoveDisallowed(FoldAccents(Lower(name)));
      RemoveDisallowedFacts(FoldAccents(Lower(name)));
      HyphenateWhitespaceChars(kept);
      CollapseHyphensChars(HyphenateWhitespace(kept));
      CollapseHyphensShape(HyphenateWhitespace(kept));
      TrimKeepsShape(CollapseHyphens(HyphenateWhitespace(kept)));
    }
  }

  /** A name that is not blank but has no letter or digit that survives
      lower-casing and folding gives the empty slug, not the fallback. */
  lemma SymbolsOnlyGiveEmptySlug(name: string)
    requires !IsBlank(name)
    requires forall i :: 0 <= i < |name| ==>
      !IsAsciiLower(FoldAccent(LowerChar(name[i]))) && !IsAsciiDigit(FoldAccent(LowerChar(name[i])))
    ensures GenerateSlug(name) == ""
  {
    var folded := FoldAccents(Lower(name));
    assert NoAlnum(folded);
    RemoveDisallowedFacts(folded);
    HyphenateWhitespaceChars(RemoveDisallowed(folded));
    CollapseHyphensChars(HyphenateWhitespace(RemoveDisallowed(folded)));
    TrimHyphensOnly(CollapseHyphens(HyphenateWhitespace(RemoveDisallowed(folded))));
  }

  lemma SlugCharUnchanged(c: char)
    requires IsSlugChar(c)
    ensures LowerChar(c) == c && FoldAccent(c) == c && !IsWhiteSpace(c) && IsKept(c)
  {
  }

  /** Filtering, hyphenating and collapsing leave slug characters without a
      run of hyphens as they are. */
  lemma PlainSlugChain(t: string)
    requires AllSlugChars(t) && NoDoubleHyphen(t)
    ensures CollapseHyphens(HyphenateWhitespace(RemoveDisallowed(t))) == t
  {
    forall i | 0 <= i < |t|
      ensures !IsWhiteSpace(t[i]) && IsKept(t[i])
    {
      SlugCharUnchanged(t[i]);
    }
    RemoveDisallowedFacts(t);
    HyphenateWhitespaceFixes(t);
    CollapseHyphensFixes(t);
  }

  /** Lower-casing and folding leave slug characters as they are. */
  lemma LowerFoldFixesSlugChars(s: string)
    requires AllSlugChars(s)
    ensures FoldAccents(Lower(s)) == s
  {
    forall i | 0 <= i < |s|
      ensures FoldAccent(LowerChar(s[i])) == s[i]
    {
      SlugCharUnchanged(s[i]);
    }
  }

  /** Every step of the chain leaves a non-empty slug-shaped string as it is. */
  lemma GenerateSlugFixesSlugs(s: string)
    requires IsSlugShaped(s) && s != ""
    ensures GenerateSlug(s) == s
  {
    SlugCharUnchanged(s[0]);
    LowerFoldFixesSlugChars(s);
    PlainSlugChain(s);
    TrimHyphensFixes(s);
  }

  /** Generating a slug from a non-empty slug changes nothing. */
  lemma GenerateSlugIdempotent(name: string)
    requires GenerateSlug(name) != ""
    ensures GenerateSlug(GenerateSlug(name)) == GenerateSlug(name)
  {
    GenerateSlugShape(name);
    GenerateSlugFixesSlugs(GenerateSlug(name));
  }

  /** A name made only of letters that lower-case and fold to `a-z` (such as
      "Őszibarack") keeps all of them: its slug is the folded lower-case name. */
  lemma LetterNamesFold(name: string)
    requires name != ""
    requires forall i :: 0 <= i < |name| ==> IsAsciiLower(FoldAccent(LowerChar(name[i])))
    ensures GenerateSlug(name) == FoldAccents(Lower(name))
  {
    var folded := FoldAccents(Lower(name));
    WhiteSpaceNotFolded(name[0]);
    assert !IsBlank(name);
    assert forall i :: 0 <= i < |folded| ==> IsAsciiLower(folded[i]);
    PlainSlugChain(folded);
    TrimHyphensFixes(folded);
  }

  /** Lower-casing and folding leave white space as it is. */
  lemma WhiteSpaceNotFolded(c: char)
    ensures IsWhiteSpace(c) ==> FoldAccent(LowerChar(c)) == c
  {
  }

  /** A character that only folding turns into a plain letter is an accented
      letter, which the slug filter would remove. */
  lemma AccentedNotKept(d: char)
    requires IsAsciiLower(FoldAccent(d)) && !IsAsciiLower(d)
    ensures !IsKept(d)
  {
  }

  // ---------------------------------------------------------------------------
  // GetSitemap
  // ---------------------------------------------------------------------------

  datatype SitemapUrl = SitemapUrl(loc: string, lastmod: Option<string>, changefreq: string, priority: string)

  /** `Products.Where(p => p.IsActive)`, in query order. */
  function ActiveProducts(products: seq<Product>): (r: seq<Product>)
    ensures |r| <= |products|
    ensures forall p :: p in r <==> p in products && p.isActive
  {
    if |products| == 0 then []
    else if products[0].isActive then [products[0]] + ActiveProducts(products[1..])
    else ActiveProducts(products[1..])
  }

  /** The filter works product by product: it distributes over concatenation.
      With `ActiveProductsSingle` this pins query order and multiplicity. */
  lemma {:induction false} ActiveProductsAppend(a: seq<Product>, b: seq<Product>)
    ensures ActiveProducts(a + b) == ActiveProducts(a) + ActiveProducts(b)
  {
    if |a| > 0 {
      assert (a + b)[1..] == a[1..] + b;
      ActiveProductsAppend(a[1..], b);
    } else {
      assert a + b == b;
    }
  }

  /** A single product is kept exactly when it is active. */
  lemma ActiveProductsSingle(p: Product)
    ensures ActiveProducts([p]) == if p.isActive then [p] else []
  {
    assert [p][1..] == [];
  }

  function ProductLoc(baseUrl: string, p: Product): string {
    baseUrl + "/product/" + IntToString(p.id) + "/" + GenerateSlug(p.name)
  }

  function HomeEntry(baseUrl: string): SitemapUrl {
    SitemapUrl(baseUrl + "/", None, "daily", "1.0")
  }

  function ShopEntry(baseUrl: string): SitemapUrl {
    SitemapUrl(baseUrl + "/shop", None, "daily", "0.8")
  }

  function ProductEntry(baseUrl: string, p: Product, today: string): SitemapUrl {
    SitemapUrl(ProductLoc(baseUrl, p), Some(today), "weekly", "0.6")
  }

  /** `head` followed by one `entry` per item, in the order given. */
  function Listing<T>(head: seq<SitemapUrl>, items: seq<T>, entry: T -> SitemapUrl): seq<SitemapUrl> {
    if |items| == 0 then head
    else Listing(head, items[..|items| - 1], entry) + [entry(items[|items| - 1])]
  }

  /** The listing position by position: the head, then entry `k` for item `k`. */
  lemma {:induction false} ListingAt<T>(head: seq<SitemapUrl>, items: seq<T>, entry: T -> SitemapUrl)
    ensures var r := Listing(head, items, entry);
      |r| == |head| + |items| && (forall k :: 0 <= k < |head| ==> r[k] == head[k]) &&
      forall k :: 0 <= k < |items| ==> r[|head| + k] == entry(items[k])
  {
    if |items| > 0 {
      ListingAt(head, items[..|items| - 1], entry);
    }
  }

  /** The sitemap of a list of active products: home, shop, then one entry
      per product in the order given. */
  function SitemapUrls(baseUrl: string, active: seq<Product>, today: string): seq<SitemapUrl> {
    Listing([HomeEntry(baseUrl), ShopEntry(baseUrl)], active, p => ProductEntry(baseUrl, p, today))
  }

  /** The URL entries of the sitemap for the active products in query order;
      `baseUrl` is scheme://host of the request and `today` the formatted date
      of the request. */
  method GetSitemap(baseUrl: string, products: seq<Product>, today: string) returns (urls: seq<SitemapUrl>)
    ensures urls == SitemapUrls(baseUrl, ActiveProducts(products), today)
  {
    var active := ActiveProducts(products);
    var head := [HomeEntry(baseUrl), ShopEntry(baseUrl)];
    ghost var entry := p => ProductEntry(baseUrl, p, today);
    urls := head;
    var i := 0;
    while i < |active|
      invariant 0 <= i <= |active|
      invariant urls == Listing(head, active[..i], entry)
    {
      assert active[..i + 1][..i] == active[..i];
      urls := urls + [ProductEntry(baseUrl, active[i], today)];
      i := i + 1;
    }
    assert active[..i] == active;
  }

  /** The sitemap starts with the home and shop entries, followed by one
      entry per active product. */
  lemma SitemapUrlsHead(baseUrl: string, active: seq<Product>, today: string)
    ensures var urls := SitemapUrls(baseUrl, active, today);
      |urls| == |active| + 2 && urls[0] == HomeEntry(baseUrl) && urls[1] == ShopEntry(baseUrl)
  {
    ListingAt([HomeEntry(baseUrl), ShopEntry(baseUrl)], active, p => ProductEntry(baseUrl, p, today));
  }

  /** Entry `k + 2` of the sitemap is the `k`-th active product's, so each
      active product is listed once, in query order. */
  lemma SitemapUrlsEntry(baseUrl: string, active: seq<Product>, today: string, k: nat)
    requires k < |active|
    ensures var urls := SitemapUrls(baseUrl, active, today);
      k + 2 < |urls| && urls[k + 2] == ProductEntry(baseUrl, active[k], today)
  {
    ListingAt([HomeEntry(baseUrl), ShopEntry(baseUrl)], active, p => ProductEntry(baseUrl, p, today));
  }

  /** Every product entry's location ends in a slug-shaped path segment. */
  lemma ProductLocShape(baseUrl: string, p: Product)
    ensures var loc := ProductLoc(baseUrl, p);
      var slug := GenerateSlug(p.name);
      loc[|loc| - |slug|..] == slug && IsSlugShaped(slug)
  {
    GenerateSlugShape(p.name);
  }
}
