/** The mock server's paginated lists (cmd/test-server/gh-test-server.go): query parsing, slicing,
    the Link header it writes, and how the client's parser reads that header. */
module ListServer {
  import opened Text
  import opened LinkHeader

  // ---- the number of pages ----

  /** `math.Ceil`, over the reals */
  function Ceil(x: real): int { -((-x).Floor) }

  function TotalPages(total: nat, perPage: nat): int
    requires perPage > 0
  {
    Ceil(total as real / perPage as real)
  }

  lemma ScaleLess(a: real, b: real, c: real)
    requires a < b && c > 0.0
    ensures a * c < b * c
  {
  }

  lemma CeilBounds(x: real)
    ensures (Ceil(x) - 1) as real < x <= Ceil(x) as real
  {
  }

  lemma QuotientTimes(t: real, c: real)
    requires c > 0.0
    ensures t / c * c == t
  {
  }

  lemma ScaleAtMost(a: real, b: real, c: real)
    requires a <= b && c > 0.0
    ensures a * c <= b * c
  {
  }

  lemma CeilNotNegative(t: real, c: real)
    requires t >= 0.0 && c > 0.0
    ensures Ceil(t / c) >= 0
  {
  }

  lemma CeilTimes(t: real, c: real)
    requires t >= 0.0 && c > 0.0
    ensures (Ceil(t / c) - 1) as real * c < t <= Ceil(t / c) as real * c
  {
    QuotientTimes(t, c);
    CeilBounds(t / c);
    ScaleLess((Ceil(t / c) - 1) as real, t / c, c);
    ScaleAtMost(t / c, Ceil(t / c) as real, c);
  }

  lemma TotalPagesBounds(total: nat, perPage: nat)
    requires perPage > 0
    ensures var n := TotalPages(total, perPage); n >= 0 && (n - 1) * perPage < total <= n * perPage
  {
    CeilNotNegative(total as real, perPage as real);
    CeilTimes(total as real, perPage as real);
    CeilProducts(total, perPage, TotalPages(total, perPage));
  }

  lemma CeilProducts(total: nat, perPage: nat, n: int)
    requires (n - 1) as real * perPage as real < total as real <= n as real * perPage as real
    ensures (n - 1) * perPage < total <= n * perPage
  {
  }

  /** The rounded-up quotient is the integer ceiling. */
  lemma TotalPagesIsCeiling(total: nat, perPage: nat)
    requires perPage > 0
    ensures TotalPages(total, perPage) == (total + perPage - 1) / perPage
  {
    TotalPagesBounds(total, perPage);
    QuotientUnique(total + perPage - 1, perPage, TotalPages(total, perPage));
  }

  lemma QuotientUnique(a: int, b: int, q: int)
    requires b > 0 && q * b <= a < q * b + b
    ensures a / b == q
  {
    var d := a / b - q;
    assert a == (q + d) * b + a % b;
    assert (q + d) * b == q * b + d * b;
    assert d >= 1 ==> d * b >= b;
    assert d <= -1 ==> d * b <= -b;
  }

  // ---- the query ----

  /** A pair of a query with that key; a pair that holds a semicolon is dropped. */
  predicate HasKey(pair: string, key: string) {
    ';' !in pair && (pair == key || key + "=" <= pair)
  }

  /** The value of the first pair with that key; empty when there is none. */
  function Get(pairs: seq<string>, key: string): string {
    if |pairs| == 0 then ""
    else if !HasKey(pairs[0], key) then Get(pairs[1..], key)
    else if pairs[0] == key then ""
    else pairs[0][|key| + 1..]
  }

  /** No pair of the query has that key. */
  predicate Lacks(query: string, key: string) {
    forall pair | pair in Split(query, {'&'}) :: !HasKey(pair, key)
  }

  lemma {:induction false} GetAbsent(pairs: seq<string>, key: string)
    requires forall pair | pair in pairs :: !HasKey(pair, key)
    ensures Get(pairs, key) == ""
    decreases |pairs|
  {
    if |pairs| > 0 {
      assert pairs[0] in pairs;
      GetAbsent(pairs[1..], key);
    }
  }

  datatype PageParams = Params(page: int, perPage: int) | BadRequest

  /** A positive number, `fallback` when the text is empty, or an error. */
  function Positive(text: string, fallback: int): Option<int> {
    if text == "" then Some(fallback)
    else match Atoi(text)
      case None => None
      case Some(n) => if n <= 0 then None else Some(n)
  }

  function ParsePagination(query: string): PageParams {
    var pairs := Split(query, {'&'});
    match (Positive(Get(pairs, "page"), 1), Positive(Get(pairs, "per_page"), 50))
    case (Some(page), Some(perPage)) => Params(page, if perPage > 100 then 100 else perPage)
    case _ => BadRequest
  }

  lemma AcceptedPagination(query: string)
    ensures var r := ParsePagination(query);
            r.Params? ==> 1 <= r.page <= MAX_INT64 && 1 <= r.perPage <= 100
    ensures Lacks(query, "page") && Lacks(query, "per_page") ==> ParsePagination(query) == Params(1, 50)
    ensures var r := ParsePagination(query);
            r.Params? ==> (Lacks(query, "page") ==> r.page == 1) && (Lacks(query, "per_page") ==> r.perPage == 50)
  {
    if Lacks(query, "page") {
      GetAbsent(Split(query, {'&'}), "page");
    }
    if Lacks(query, "per_page") {
      GetAbsent(Split(query, {'&'}), "per_page");
    }
  }

  /** The value that a query gives a key: the text after `=` in the first pair with that key and without a
      semicolon; empty when no pair has it. */
  ghost predicate FirstValue(pairs: seq<string>, key: string, value: string) {
    (value == "" && forall pair | pair in pairs :: !HasKey(pair, key)) ||
    exists i | 0 <= i < |pairs| :: ValueAt(pairs, key, value, i)
  }

  ghost predicate ValueAt(pairs: seq<string>, key: string, value: string, i: nat)
    requires i < |pairs|
  {
    && ';' !in pairs[i] && (pairs[i] == key + "=" + value || (pairs[i] == key && value == ""))
    && forall pair | pair in pairs[..i] :: !HasKey(pair, key)
  }

  lemma {:induction false} GetIsFirstValue(pairs: seq<string>, key: string)
    ensures FirstValue(pairs, key, Get(pairs, key))
    decreases |pairs|
  {
    if |pairs| > 0 {
      if HasKey(pairs[0], key) {
        assert pairs[0] != key ==> pairs[0] == key + "=" + pairs[0][|key| + 1..];
        assert ValueAt(pairs, key, Get(pairs, key), 0);
      } else {
        GetIsFirstValue(pairs[1..], key);
        FirstValueLater(pairs, key, Get(pairs, key));
      }
    }
  }

  lemma FirstValueLater(pairs: seq<string>, key: string, value: string)
    requires |pairs| > 0 && !HasKey(pairs[0], key) && FirstValue(pairs[1..], key, value)
    ensures FirstValue(pairs, key, value)
  {
    assert pairs == [pairs[0]] + pairs[1..];
    if !(value == "" && forall pair | pair in pairs :: !HasKey(pair, key)) {
      var i :| 0 <= i < |pairs[1..]| && ValueAt(pairs[1..], key, value, i);
      assert pairs[..i + 1] == [pairs[0]] + pairs[1..][..i];
      assert ValueAt(pairs, key, value, i + 1);
    }
  }

  /** No pair gives the key another first value. */
  lemma FirstValueUnique(pairs: seq<string>, key: string, v: string, w: string)
    requires FirstValue(pairs, key, v) && FirstValue(pairs, key, w)
    ensures v == w
  {
    if exists i | 0 <= i < |pairs| :: HasKey(pairs[i], key) {
      var i := TheFirst(pairs, key, v);
      var j := TheFirst(pairs, key, w);
      NotAfter(pairs, key, v, i, j);
      NotAfter(pairs, key, w, j, i);
      SamePair(key, v, w, pairs[i]);
    }
  }

  lemma NotAfter(pairs: seq<string>, key: string, value: string, i: nat, j: nat)
    requires i < |pairs| && j < |pairs| && ValueAt(pairs, key, value, i) && HasKey(pairs[j], key)
    ensures i <= j
  {
    InPrefix(pairs, i, j);
  }

  lemma InPrefix(pairs: seq<string>, i: nat, j: nat)
    requires i < |pairs|
    ensures j < i ==> pairs[j] in pairs[..i]
  {
    if j < i {
      assert pairs[..i][j] == pairs[j];
    }
  }

  lemma TheFirst(pairs: seq<string>, key: string, value: string) returns (i: nat)
    requires FirstValue(pairs, key, value) && exists k | 0 <= k < |pairs| :: HasKey(pairs[k], key)
    ensures i < |pairs| && ValueAt(pairs, key, value, i) && HasKey(pairs[i], key)
  {
    var k :| 0 <= k < |pairs| && HasKey(pairs[k], key);
    assert pairs[k] in pairs;
    i :| 0 <= i < |pairs| && ValueAt(pairs, key, value, i);
    assert key + "=" <= key + "=" + value;
  }

  lemma SamePair(key: string, v: string, w: string, pair: string)
    requires pair == key + "=" + v || (pair == key && v == "")
    requires pair == key + "=" + w || (pair == key && w == "")
    ensures v == w
  {
    assert (key + "=" + v)[|key| + 1..] == v && (key + "=" + w)[|key| + 1..] == w;
  }

  /** A value that is given and is no number from 1 to 2^63 - 1 in decimal. */
  ghost predicate Unusable(value: string) {
    value != "" && !exists n: int | 1 <= n <= MAX_INT64 :: Writes(value, n)
  }

  /** The number that a parameter stands for. */
  ghost predicate StandsFor(value: string, fallback: int, n: int) {
    if value == "" then n == fallback else Writes(value, n) && 1 <= n <= MAX_INT64
  }

  lemma PositiveExactly(value: string, fallback: int, n: int)
    ensures Positive(value, fallback).None? <==> Unusable(value)
    ensures Positive(value, fallback) == Some(n) <==> StandsFor(value, fallback, n)
  {
    forall m ensures Atoi(value) == Some(m) <==> Writes(value, m) && MIN_INT64 <= m <= MAX_INT64 {
      AtoiExactly(value, m);
    }
  }

  /** Main result, queries: a query is refused exactly when the first value of one of the two parameters is
      given and unusable; otherwise it asks for the page and the size that they stand for, up to 100. */
  lemma PaginationExactly(query: string, pageValue: string, perPageValue: string, page: int, perPage: int)
    requires FirstValue(Split(query, {'&'}), "page", pageValue)
    requires FirstValue(Split(query, {'&'}), "per_page", perPageValue)
    ensures ParsePagination(query) == BadRequest <==> Unusable(pageValue) || Unusable(perPageValue)
    ensures StandsFor(pageValue, 1, page) && StandsFor(perPageValue, 50, perPage) ==>
              ParsePagination(query) == Params(page, if perPage > 100 then 100 else perPage)
  {
    var pairs := Split(query, {'&'});
    GetIsFirstValue(pairs, "page");
    GetIsFirstValue(pairs, "per_page");
    FirstValueUnique(pairs, "page", pageValue, Get(pairs, "page"));
    FirstValueUnique(pairs, "per_page", perPageValue, Get(pairs, "per_page"));
    PositiveExactly(pageValue, 1, page);
    PositiveExactly(perPageValue, 50, perPage);
  }

  function QueryOf(page: int, perPage: int): string {
    "page=" + Itoa(page) + "&" + "per_page=" + Itoa(perPage)
  }

  lemma DigitsFree(n: nat, cs: set<char>)
    requires forall c | c in cs :: !IsDigit(c)
    ensures Free(Itoa(n), cs)
  {
    DigitsChars(n);
  }

  lemma GetNumbers(a: string, b: string)
    requires ';' !in a && ';' !in b
    ensures Get(["page=" + a, "per_page=" + b], "page") == a
    ensures Get(["page=" + a, "per_page=" + b], "per_page") == b
  {
    var p, q := "page=" + a, "per_page=" + b;
    assert "page" + "=" == "page=" && "per_page" + "=" == "per_page=";
    assert p[5..] == a && q[9..] == b;
    assert p[1] == 'a' && "per_page="[1] == 'e' && "per_page"[1] == 'e';
    assert [p, q][1..] == [q];
  }

  lemma PairIsOnePart(key: string, n: nat)
    requires '&' !in key
    ensures Split(key + Itoa(n), {'&'}) == [key + Itoa(n)]
  {
    DigitsFree(n, {'&'});
    FreeConcat(key, Itoa(n), {'&'});
    SplitFree(key + Itoa(n), {'&'});
  }

  lemma PairsOfQuery(page: nat, perPage: nat)
    ensures Split(QueryOf(page, perPage), {'&'}) == ["page=" + Itoa(page), "per_page=" + Itoa(perPage)]
  {
    var a, b := "page=" + Itoa(page), "per_page=" + Itoa(perPage);
    PairIsOnePart("page=", page);
    PairIsOnePart("per_page=", perPage);
    SplitAt(a, '&', b, {'&'});
    assert QueryOf(page, perPage) == a + ['&'] + b;
  }

  lemma PositiveItoa(n: int, fallback: int)
    requires 1 <= n <= MAX_INT64
    ensures Positive(Itoa(n), fallback) == Some(n)
  {
    AtoiItoa(n);
    ItoaChars(n);
  }

  /** The server reads back the page number that a link carries, and caps the page size at 100. */
  lemma ParseQueryOf(page: nat, perPage: nat)
    requires 1 <= page <= MAX_INT64 && 1 <= perPage <= MAX_INT64
    ensures ParsePagination(QueryOf(page, perPage)) == Params(page, if perPage > 100 then 100 else perPage)
  {
    PairsOfQuery(page, perPage);
    DigitsFree(page, {';'});
    DigitsFree(perPage, {';'});
    GetNumbers(Itoa(page), Itoa(perPage));
    PositiveItoa(page, 1);
    PositiveItoa(perPage, 50);
  }

  // ---- slicing ----

  /** 64-bit two's-complement wrap-around */
  function Wrap64(x: int): int {
    (x + 0x8000_0000_0000_0000) % 0x1_0000_0000_0000_0000 - 0x8000_0000_0000_0000
  }

  /** At most `size` items of a list from offset `start` on. */
  function Window<T>(list: seq<T>, start: int, size: int): seq<T>
    requires start >= 0 && size >= 1
  {
    if start >= |list| then [] else list[start..if start + size > |list| then |list| else start + size]
  }

  /** The page that was asked for. */
  function PageOf<T>(list: seq<T>, page: int, perPage: int): seq<T>
    requires page >= 1 && perPage >= 1
  {
    assert (page - 1) * perPage >= 0;
    Window(list, (page - 1) * perPage, perPage)
  }

  datatype Slice<+T> = Data(items: seq<T>) | OutOfRange

  /** The offsets that do no harm: nothing wraps, or the wrapped offset is still past the list. */
  predicate SafeStart(total: nat, start: int, size: int) {
    if start <= MAX_INT64 then start >= total || start + size <= MAX_INT64 else Wrap64(start) >= total
  }

  predicate SliceSafe(total: nat, page: int, perPage: int) {
    SafeStart(total, (page - 1) * perPage, perPage)
  }

  /** What the branch on the two bounds answers. */
  function Sliced<T>(list: seq<T>, lo: int, hi: int): Slice<T> {
    var end := if hi > |list| then |list| else hi;
    if lo >= |list| then Data([]) else if 0 <= lo <= end then Data(list[lo..end]) else OutOfRange
  }

  method SliceBetween<T>(list: seq<T>, startIndex: int, end: int) returns (r: Slice<T>)
    ensures r == Sliced(list, startIndex, end)
  {
    var totalItems, endIndex := |list|, end;
    if startIndex < totalItems {
      if endIndex > totalItems {
        endIndex := totalItems;
      }
      if !(0 <= startIndex <= endIndex) {
        return OutOfRange;
      }
      r := Data(list[startIndex..endIndex]);
    } else {
      r := Data([]);
    }
  }

  /** The slicing that the six list handlers share.  Main result: it answers with the page that was
      asked for exactly when the condition above holds; otherwise it answers with another page, or
      fails on its slice bounds. */
  method Paginate<T>(list: seq<T>, page: int, perPage: int) returns (r: Slice<T>)
    requires 1 <= page <= MAX_INT64 && 1 <= perPage <= 100 && |list| <= MAX_INT64
    ensures r == Handled(list, page, perPage)
    ensures r == Data(PageOf(list, page, perPage)) <==> SliceSafe(|list|, page, perPage)
  {
    var startIndex := StartIndex(page, perPage);
    r := SliceBetween(list, startIndex, Wrap64(startIndex + perPage));
    PageMeaning(list, page, perPage);
  }

  function StartIndex(page: int, perPage: int): int { Wrap64((page - 1) * perPage) }

  /** What the handlers make of a request: their slice between the two wrapped offsets. */
  function Handled<T>(list: seq<T>, page: int, perPage: int): Slice<T> {
    Sliced(list, StartIndex(page, perPage), Wrap64(StartIndex(page, perPage) + perPage))
  }

  lemma PageMeaning<T>(list: seq<T>, page: int, perPage: int)
    requires page >= 1 && 1 <= perPage <= 100 && |list| <= MAX_INT64
    ensures Handled(list, page, perPage) == Data(PageOf(list, page, perPage)) <==> SliceSafe(|list|, page, perPage)
  {
    MultipleAtMost(0, page - 1, perPage);
    SliceMeaning(list, (page - 1) * perPage, perPage);
  }

  /** The wrapped bounds cut out the window exactly when the offset is safe. */
  lemma SliceMeaning<T>(list: seq<T>, start: nat, size: int)
    requires 1 <= size <= 100 && |list| <= MAX_INT64
    ensures Sliced(list, Wrap64(start), Wrap64(Wrap64(start) + size)) == Data(Window(list, start, size)) <==>
            SafeStart(|list|, start, size)
  {
    WrapFits(start);
    WrapFits(Wrap64(start) + size);
    BoundsMeaning(list, start, size, Wrap64(start), Wrap64(Wrap64(start) + size));
  }

  lemma BoundsMeaning<T>(list: seq<T>, start: nat, size: int, lo: int, hi: int)
    requires size >= 1 && |list| <= MAX_INT64 && lo <= MAX_INT64
    requires start <= MAX_INT64 ==> lo == start
    requires if lo + size <= MAX_INT64 then hi == lo + size else hi < 0
    ensures Sliced(list, lo, hi) == Data(Window(list, start, size)) <==>
            if start <= MAX_INT64 then start >= |list| || start + size <= MAX_INT64 else lo >= |list|
  {
  }

  lemma WrapFits(x: int)
    ensures MIN_INT64 <= Wrap64(x) <= MAX_INT64
    ensures MIN_INT64 <= x <= MAX_INT64 ==> Wrap64(x) == x
    ensures (Wrap64(x) - x) % 0x1_0000_0000_0000_0000 == 0
    ensures MAX_INT64 < x <= MAX_INT64 + 100 ==> Wrap64(x) < 0
  {
  }

  /** What an unsafe request gets: no answer when its wrapped bounds are out of order or negative, and
      otherwise the window at the wrapped offset. */
  lemma HandledExactly<T>(list: seq<T>, page: int, perPage: int)
    requires 1 <= perPage <= 100 && |list| <= MAX_INT64
    ensures var lo := StartIndex(page, perPage);
            && (lo - (page - 1) * perPage) % 0x1_0000_0000_0000_0000 == 0
            && Handled(list, page, perPage) ==
               if lo < 0 || (lo < |list| && lo + perPage > MAX_INT64) then OutOfRange else Data(Window(list, lo, perPage))
  {
    WrapFits((page - 1) * perPage);
    WrapFits(StartIndex(page, perPage) + perPage);
  }

  /** No product up to 2^63 - 1 is unsafe. */
  lemma SmallProductsSafe(total: nat, page: int, perPage: int)
    requires perPage >= 0 && page * perPage <= MAX_INT64
    ensures SliceSafe(total, page, perPage)
  {
  }

  /** An unsafe request: page 2^58 + 1 of size 64 starts at 2^64, which wraps to 0, so that it is answered
      with the first page instead of an empty one. */
  lemma WrappedPage<T>(list: seq<T>)
    requires 0 < |list| <= MAX_INT64
    ensures var page := 0x400_0000_0000_0001;
            && page <= MAX_INT64
            && Handled(list, page, 64) == Data(PageOf(list, 1, 64))
            && PageOf(list, page, 64) == []
  {
  }

  /** The pages from `page` to the last. */
  function PagesFrom<T>(list: seq<T>, page: int, count: nat, perPage: int): seq<seq<T>>
    requires page >= 1 && perPage >= 1
  {
    seq(count, i requires 0 <= i < count => PageOf(list, page + i, perPage))
  }

  function Concat<T>(pages: seq<seq<T>>): seq<T> {
    if |pages| == 0 then [] else pages[0] + Concat(pages[1..])
  }

  lemma {:induction false} PagesCoverFrom<T>(list: seq<T>, page: int, count: nat, perPage: int)
    requires page >= 1 && perPage >= 1 && page - 1 + count == TotalPages(|list|, perPage)
    ensures 0 <= (page - 1) * perPage
    ensures count == 0 ==> |list| <= (page - 1) * perPage
    ensures count > 0 ==> (page - 1) * perPage < |list|
    ensures Concat(PagesFrom(list, page, count, perPage)) ==
            if count == 0 then [] else list[(page - 1) * perPage..]
    decreases count
  {
    var n, start := TotalPages(|list|, perPage), (page - 1) * perPage;
    TotalPagesBounds(|list|, perPage);
    assert page * perPage == start + perPage;
    if count > 0 {
      MultipleAtMost(page - 1, n - 1, perPage);
      MultipleAtMost(0, page - 1, perPage);
      PagesCoverFrom(list, page + 1, count - 1, perPage);
      PagesHead(list, page, count, perPage);
      WindowTail(list, start, perPage);
    }
  }

  lemma WindowTail<T>(list: seq<T>, start: nat, size: int)
    requires size >= 1 && start < |list|
    ensures list[start..] == Window(list, start, size) + if start + size < |list| then list[start + size..] else []
  {
  }

  lemma MultipleAtMost(a: int, b: int, c: int)
    requires a <= b && c >= 0
    ensures a * c <= b * c
  {
  }

  lemma PagesHead<T>(list: seq<T>, page: int, count: nat, perPage: int)
    requires page >= 1 && perPage >= 1 && count > 0
    ensures Concat(PagesFrom(list, page, count, perPage)) ==
            PageOf(list, page, perPage) + Concat(PagesFrom(list, page + 1, count - 1, perPage))
  {
    var pages := PagesFrom(list, page, count, perPage);
    assert pages[0] == PageOf(list, page, perPage);
    assert pages[1..] == PagesFrom(list, page + 1, count - 1, perPage);
  }

  /** Main result, partition: the slices of all pages, put together, give back the list. */
  lemma PagesPartition<T>(list: seq<T>, perPage: int)
    requires perPage >= 1
    ensures TotalPages(|list|, perPage) >= 0
    ensures Concat(PagesFrom(list, 1, TotalPages(|list|, perPage), perPage)) == list
  {
    TotalPagesBounds(|list|, perPage);
    PagesCoverFrom(list, 1, TotalPages(|list|, perPage), perPage);
    assert list[0..] == list;
  }

  // ---- the Link header ----

  function LinkURL(path: string, page: int, perPage: int): string {
    path + "?" + QueryOf(page, perPage)
  }

  /** A link-value as the server prints it. */
  function Rendered(target: string, rel: string): string { "<" + target + ">; " + Needle(rel) }

  /** The link-values before `prev` and `first`. */
  function FrontRefs(path: string, p: int, n: int, perPage: int): seq<LinkRef> {
    if p < n then [LinkRef("", LinkURL(path, p + 1, perPage), "next"), LinkRef(" ", LinkURL(path, n, perPage), "last")]
    else if p > n then [LinkRef("", LinkURL(path, n, perPage), "last")]
    else []
  }

  /** The link-values of page `p` of `n`: next and last before the end, last beyond it, prev and first
      after the first page; a blank stands before all but the first. */
  function Refs(path: string, p: int, n: int, perPage: int): seq<LinkRef> {
    FrontRefs(path, p, n, perPage) +
    if p <= 1 then []
    else [LinkRef(if p == n then "" else " ", LinkURL(path, p - 1, perPage), "prev"),
          LinkRef(" ", LinkURL(path, 1, perPage), "first")]
  }

  /** The value of the Link header; empty when the server sets none. */
  function HeaderOf(path: string, p: int, perPage: int, total: nat): string
    requires perPage > 0
  {
    if total == 0 then "" else Header(Refs(path, p, TotalPages(total, perPage), perPage))
  }

  /** `generateLinkHeader`: the value that is set, or the empty text when none is. */
  method GenerateLinkHeader(path: string, currentPage: int, perPage: nat, totalItems: nat) returns (header: string)
    requires currentPage >= 1
    ensures header == if perPage == 0 then "" else HeaderOf(path, currentPage, perPage, totalItems)
  {
    if totalItems == 0 || perPage == 0 {
      return "";
    }
    TotalPagesBounds(totalItems, perPage);
    var totalPages := TotalPages(totalItems, perPage);
    var links: seq<string> := [];
    if currentPage < totalPages {
      links := links + [Rendered(LinkURL(path, currentPage + 1, perPage), "next")];
    }
    if totalPages > 0 && currentPage != totalPages {
      links := links + [Rendered(LinkURL(path, totalPages, perPage), "last")];
    }
    if currentPage > 1 {
      links := links + [Rendered(LinkURL(path, currentPage - 1, perPage), "prev")];
      links := links + [Rendered(LinkURL(path, 1, perPage), "first")];
    }
    assert links == RenderedAll(Refs(path, currentPage, totalPages, perPage));
    SpacedRefs(path, currentPage, totalPages, perPage);
    JoinIsHeader(Refs(path, currentPage, totalPages, perPage));
    if |links| > 0 {
      header := Join(links, ", ");
    } else {
      header := "";
    }
  }

  lemma SpacedRefs(path: string, p: int, n: int, perPage: int)
    requires p >= 1 && n >= 1
    ensures Spaced(Refs(path, p, n, perPage))
  {
  }

  function RenderedAll(refs: seq<LinkRef>): seq<string> {
    seq(|refs|, i requires 0 <= i < |refs| => Rendered(refs[i].target, refs[i].rel))
  }

  /** A blank before every link-value but the first, as joining with `, ` leaves it. */
  predicate Spaced(refs: seq<LinkRef>) {
    forall i | 0 <= i < |refs| :: refs[i] == LinkRef(if i == 0 then "" else " ", refs[i].target, refs[i].rel)
  }

  lemma {:induction false} JoinIsHeader(refs: seq<LinkRef>)
    requires Spaced(refs)
    ensures Join(RenderedAll(refs), ", ") == Header(refs)
    decreases |refs|
  {
    if |refs| > 0 {
      var front, r := refs[..|refs| - 1], refs[|refs| - 1];
      JoinIsHeader(front);
      RenderedLast(refs);
      JoinLast(RenderedAll(front), Rendered(r.target, r.rel));
      RenderedIsText(r);
      JoinStep(Header(front), Rendered(r.target, r.rel));
      HeaderLast(refs);
    }
  }

  lemma RenderedLast(refs: seq<LinkRef>)
    requires |refs| > 0
    ensures var n := |refs| - 1;
            RenderedAll(refs) == RenderedAll(refs[..n]) + [Rendered(refs[n].target, refs[n].rel)]
  {
  }

  lemma JoinLast(front: seq<string>, last: string)
    ensures Join(front + [last], ", ") == if front == [] then last else Join(front, ", ") + ", " + last
  {
    assert (front + [last])[..|front|] == front;
  }

  lemma HeaderLast(refs: seq<LinkRef>)
    requires |refs| > 0
    ensures var n, text := |refs| - 1, TargetPart(refs[|refs| - 1]) + ";" + RelPart(refs[|refs| - 1]);
            Header(refs) == if n == 0 then text else Header(refs[..n]) + "," + text
  {
  }

  lemma RenderedIsText(r: LinkRef)
    requires r == LinkRef(r.pad, r.target, r.rel)
    ensures TargetPart(r) + ";" + RelPart(r) == r.pad + Rendered(r.target, r.rel)
  {
  }

  lemma JoinStep(a: string, b: string)
    ensures a + ", " + b == a + "," + (" " + b)
  {
  }

  // ---- from the server's printer to the client's parser ----

  const MARKS: set<char> := {',', ';', '<', '>', '"', '?'}

  /** No separator, bracket, quote or question mark. */
  predicate CleanPath(path: string) { Free(path, MARKS) }

  lemma RelNeedsQuote(s: string, needle: string)
    requires '"' in needle && Contains(s, needle)
    ensures '"' in s
  {
  }

  lemma CleanQuery(page: nat, perPage: nat)
    ensures Free(QueryOf(page, perPage), MARKS)
  {
    DigitsFree(page, MARKS);
    DigitsFree(perPage, MARKS);
    QueryKeysFree();
    FreeParts("page=", Itoa(page), "&", "per_page=", Itoa(perPage), MARKS);
  }

  lemma QueryKeysFree()
    ensures Free("page=", MARKS) && Free("&", MARKS) && Free("per_page=", MARKS)
  {
  }

  lemma FreeParts(a: string, b: string, c: string, d: string, e: string, cs: set<char>)
    requires Free(a, cs) && Free(b, cs) && Free(c, cs) && Free(d, cs) && Free(e, cs)
    ensures Free(a + b + c + d + e, cs)
  {
  }

  lemma CleanLinkURL(path: string, page: nat, perPage: nat)
    requires CleanPath(path)
    ensures var u := LinkURL(path, page, perPage); Free(u, SPECIALS) && '"' !in u && u != ""
  {
    CleanQuery(page, perPage);
    var cs: set<char> := {',', ';', '<', '>', '"'};
    FreeConcat(path, "?", cs);
    FreeConcat(path + "?", QueryOf(page, perPage), cs);
  }

  lemma CleanRef(r: LinkRef)
    requires r == LinkRef(r.pad, r.target, r.rel) && (r.pad == "" || r.pad == " ")
    requires r.rel == "next" || r.rel == "last" || r.rel == "prev" || r.rel == "first"
    requires Free(r.target, SPECIALS) && '"' !in r.target
    ensures Clean(r)
  {
    assert Free(r.rel, {',', ';', '"'});
    if Contains(r.target, LINK_NEXT) {
      RelNeedsQuote(r.target, LINK_NEXT);
    }
    if Contains(r.target, LINK_LAST) {
      RelNeedsQuote(r.target, LINK_LAST);
    }
  }

  lemma CleanRefs(path: string, p: nat, n: nat, perPage: nat)
    requires CleanPath(path) && p >= 1
    ensures forall i | 0 <= i < |Refs(path, p, n, perPage)| :: Clean(Refs(path, p, n, perPage)[i])
  {
    CleanLinkURL(path, p - 1, perPage);
    CleanLinkURL(path, p + 1, perPage);
    CleanLinkURL(path, 1, perPage);
    CleanLinkURL(path, n, perPage);
    var refs := Refs(path, p, n, perPage);
    forall i | 0 <= i < |refs| ensures Clean(refs[i]) {
      CleanRef(refs[i]);
    }
  }

  /** What the client makes of page `p` of `n`. */
  function Understood(path: string, p: nat, n: nat, perPage: nat): (Outcome, Links) {
    if p < n then (Accepted, Links(LinkURL(path, p + 1, perPage), " " + LinkURL(path, n, perPage)))
    else if p > n then (Accepted, Links("", LinkURL(path, n, perPage)))
    else if p == 1 then (Accepted, NO_LINKS)
    else (Malformed, NO_LINKS)
  }

  lemma FoundPlain(pad: string, target: string, rel: string)
    ensures Found(LinkRef(pad, target, rel)) == pad + target
  {
  }

  lemma LastNamedRefs(path: string, p: nat, n: nat, perPage: nat)
    requires p >= 1
    ensures LastNamed(Refs(path, p, n, perPage), "next", "") == if p < n then LinkURL(path, p + 1, perPage) else ""
    ensures LastNamed(Refs(path, p, n, perPage), "last", "") ==
            if p < n then " " + LinkURL(path, n, perPage) else if p > n then LinkURL(path, n, perPage) else ""
  {
    NamedByRefs(path, p, n, perPage, "next");
    NamedByRefs(path, p, n, perPage, "last");
  }

  /** On page 1 of several, the retained blank keeps `last` apart from `next` even when both name page 2. */
  lemma BlankTellsApart(path: string, a: nat, b: nat, perPage: nat)
    requires CleanPath(path)
    ensures LinkURL(path, a, perPage) != " " + LinkURL(path, b, perPage)
  {
    var u, v := LinkURL(path, a, perPage), " " + LinkURL(path, b, perPage);
    assert u[|path|] == '?';
    if |path| > 0 {
      assert v[|path|] == path[|path| - 1] && path[|path| - 1] in path;
    }
  }

  /** Main result, printer to parser: for every page of every list the client understands the server's
      header as stated; of several pages it refuses exactly the last one. */
  lemma HeaderUnderstood(path: string, p: nat, perPage: nat, total: nat)
    requires CleanPath(path) && p >= 1 && perPage >= 1
    ensures Unmarshal(HeaderOf(path, p, perPage, total), NO_LINKS) ==
            if total == 0 then (Accepted, NO_LINKS) else Understood(path, p, TotalPages(total, perPage), perPage)
  {
    if total > 0 {
      TotalPagesBounds(total, perPage);
      RefsUnderstood(path, p, TotalPages(total, perPage), perPage);
    }
  }

  lemma RefsUnderstood(path: string, p: nat, n: nat, perPage: nat)
    requires CleanPath(path) && p >= 1 && n >= 1
    ensures Unmarshal(Header(Refs(path, p, n, perPage)), NO_LINKS) == Understood(path, p, n, perPage)
  {
    CleanRefs(path, p, n, perPage);
    LastNamedRefs(path, p, n, perPage);
    BlankTellsApart(path, p + 1, n, perPage);
    if p != n || p > 1 {
      ParseLinkList(Refs(path, p, n, perPage), NO_LINKS);
    }
  }

  lemma QuoteFreeRefs(path: string, p: nat, n: nat, perPage: nat)
    requires CleanPath(path) && p >= 1
    ensures forall i | 0 <= i < |Refs(path, p, n, perPage)| :: QuoteFree(Refs(path, p, n, perPage)[i])
  {
    CleanLinkURL(path, p - 1, perPage);
    CleanLinkURL(path, p + 1, perPage);
    CleanLinkURL(path, 1, perPage);
    CleanLinkURL(path, n, perPage);
    var refs := Refs(path, p, n, perPage);
    forall i | 0 <= i < |refs| ensures QuoteFree(refs[i]) {
      QuoteFreeRef(refs[i]);
    }
  }

  lemma QuoteFreeRef(r: LinkRef)
    requires r == LinkRef(r.pad, r.target, r.rel) && (r.pad == "" || r.pad == " ")
    requires r.rel == "next" || r.rel == "last" || r.rel == "prev" || r.rel == "first"
    requires '"' !in r.target
    ensures QuoteFree(r)
  {
  }

  /** The target that the header of page `p` of `n` names with a rel; a blank before all but the first. */
  function RelTarget(path: string, p: nat, n: nat, perPage: nat, rel: string): string
    requires p >= 1
  {
    if rel == "next" && p < n then LinkURL(path, p + 1, perPage)
    else if rel == "last" && p != n then (if p < n then " " else "") + LinkURL(path, n, perPage)
    else if rel == "prev" && p > 1 then (if p == n then "" else " ") + LinkURL(path, p - 1, perPage)
    else if rel == "first" && p > 1 then " " + LinkURL(path, 1, perPage)
    else ""
  }

  /** Main result, header texts: what the header of each page of each list names with each rel, read from its
      text; an only page, and an empty list, have no header, and that of page 1 has no `prev` or `first`. */
  lemma HeaderNames(path: string, p: nat, perPage: nat, total: nat, rel: string)
    requires CleanPath(path) && p >= 1 && perPage >= 1 && '"' !in rel
    ensures var n, header := TotalPages(total, perPage), HeaderOf(path, p, perPage, total);
            && (header == "" <==> total == 0 || (p == 1 && n == 1))
            && (total > 0 ==> n >= 1 && Named(header, rel) == RelTarget(path, p, n, perPage, rel))
            && (p == 1 ==> !Contains(header, "rel=\"prev\"") && !Contains(header, "rel=\"first\""))
  {
    if total > 0 {
      TotalPagesBounds(total, perPage);
      NamedRefs(path, p, TotalPages(total, perPage), perPage, rel);
      if p == 1 {
        RelsAbsent(path, TotalPages(total, perPage), perPage);
      }
    }
  }

  lemma NamedRefs(path: string, p: nat, n: nat, perPage: nat, rel: string)
    requires CleanPath(path) && p >= 1 && n >= 1 && '"' !in rel
    ensures Header(Refs(path, p, n, perPage)) == "" <==> p == 1 && n == 1
    ensures Named(Header(Refs(path, p, n, perPage)), rel) == RelTarget(path, p, n, perPage, rel)
  {
    var refs := Refs(path, p, n, perPage);
    CleanRefs(path, p, n, perPage);
    QuoteFreeRefs(path, p, n, perPage);
    NamedInList(refs, rel);
    NamedByRefs(path, p, n, perPage, rel);
    if |refs| > 0 {
      HeaderNotEmpty(refs);
    }
  }

  lemma NamedByRefs(path: string, p: nat, n: nat, perPage: nat, rel: string)
    requires p >= 1
    ensures LastNamed(Refs(path, p, n, perPage), rel, "") == RelTarget(path, p, n, perPage, rel)
  {
    var front := FrontRefs(path, p, n, perPage);
    var next, last := LinkURL(path, p + 1, perPage), LinkURL(path, n, perPage);
    NamedTwo([], LinkRef("", next, "next"), LinkRef(" ", last, "last"), rel);
    NamedOne(LinkRef("", last, "last"), rel);
    var prev := LinkRef(if p == n then "" else " ", LinkURL(path, p - 1, perPage), "prev");
    NamedTwo(front, prev, LinkRef(" ", LinkURL(path, 1, perPage), "first"), rel);
    FoundPlain("", next, "next");
    FoundPlain("", last, "last");
    FoundPlain(" ", last, "last");
    FoundPlain(prev.pad, prev.target, "prev");
    FoundPlain(" ", LinkURL(path, 1, perPage), "first");
  }

  lemma NamedTwo(front: seq<LinkRef>, a: LinkRef, b: LinkRef, rel: string)
    ensures LastNamed(front + [a, b], rel, "") ==
            if b.rel == rel then Found(b) else if a.rel == rel then Found(a) else LastNamed(front, rel, "")
  {
    var all := front + [a, b];
    assert all[..|all| - 1] == front + [a];
    assert (front + [a])[..|front|] == front;
  }

  lemma NamedOne(a: LinkRef, rel: string)
    ensures LastNamed([a], rel, "") == if a.rel == rel then Found(a) else ""
  {
  }

  /** Page 1 has no link-value but next and last. */
  lemma FrontOnly(path: string, n: nat, perPage: nat, rel: string)
    requires rel == "prev" || rel == "first"
    ensures forall i | 0 <= i < |Refs(path, 1, n, perPage)| :: Refs(path, 1, n, perPage)[i].rel != rel
  {
  }

  lemma RelsAbsent(path: string, n: nat, perPage: nat)
    requires CleanPath(path) && n >= 1
    ensures !Contains(Header(Refs(path, 1, n, perPage)), "rel=\"prev\"")
    ensures !Contains(Header(Refs(path, 1, n, perPage)), "rel=\"first\"")
  {
    BackRelAbsent(path, 1, n, perPage, "prev");
    BackRelAbsent(path, 1, n, perPage, "first");
    NeedleTexts();
  }

  lemma NeedleTexts()
    ensures Needle("prev") == "rel=\"prev\"" && Needle("first") == "rel=\"first\""
  {
  }

  lemma BackRelAbsent(path: string, p: nat, n: nat, perPage: nat, rel: string)
    requires CleanPath(path) && p == 1 && n >= 1 && (rel == "prev" || rel == "first")
    ensures !Contains(Header(Refs(path, p, n, perPage)), Needle(rel))
  {
    CleanRefs(path, p, n, perPage);
    QuoteFreeRefs(path, p, n, perPage);
    FrontOnly(path, n, perPage, rel);
    BackRelText(rel);
    RelAbsent(Refs(path, p, n, perPage), rel);
  }

  lemma BackRelText(rel: string)
    requires rel == "prev" || rel == "first"
    ensures '"' !in rel && Free(rel, SEPARATORS)
  {
  }

  /** The regular-expression shortcut agrees with the parser on every page that has a next one, and on
      every later page it mistakes another link for the next one. */
  lemma ShortcutOnHeaders(path: string, p: nat, perPage: nat, total: nat)
    requires CleanPath(path) && p >= 1 && perPage >= 1
    ensures var n := TotalPages(total, perPage);
            GetNextLink(HeaderOf(path, p, perPage, total)) ==
            if total == 0 then ""
            else if p < n then LinkURL(path, p + 1, perPage)
            else if p > n then LinkURL(path, n, perPage)
            else if p > 1 then LinkURL(path, p - 1, perPage)
            else ""
  {
    if total > 0 {
      TotalPagesBounds(total, perPage);
      var n := TotalPages(total, perPage);
      var refs := Refs(path, p, n, perPage);
      if |refs| > 0 {
        CleanRefs(path, p, n, perPage);
        CleanLinkURL(path, p + 1, perPage);
        CleanLinkURL(path, n, perPage);
        CleanLinkURL(path, p - 1, perPage);
        GetNextLinkTakesFirst(refs);
      }
    }
  }

  // ---- following the next links ----

  lemma CutAt(path: string, query: string)
    requires '?' !in path
    ensures var target := path + "?" + query;
            var i := IndexOf(target, '?');
            i < |target| && target[..i] == path && target[i + 1..] == query
  {
    IndexOfAt(path, '?', query);
    assert path + "?" + query == path + ['?'] + query;
  }

  /** The answers along a chain of links from `url`, at most `fuel`; an empty link ends it. */
  function Followed<A>(get: string -> Option<(A, string)>, url: string, fuel: nat): seq<A>
    decreases fuel
  {
    if fuel == 0 || url == "" then []
    else match get(url)
      case None => []
      case Some((answer, next)) => [answer] + Followed(get, next, fuel - 1)
  }

  /** Link `i` of a chain answers, and leads to the next one or ends the chain. */
  predicate Linked<A(==)>(get: string -> Option<(A, string)>, urls: seq<string>, answers: seq<A>, i: nat)
    requires |urls| == |answers| && i < |urls|
  {
    urls[i] != "" && get(urls[i]) == Some((answers[i], if i + 1 < |urls| then urls[i + 1] else ""))
  }

  lemma {:induction false} FollowedChain<A>(get: string -> Option<(A, string)>, urls: seq<string>, answers: seq<A>, k: nat, fuel: nat)
    requires |urls| == |answers| && k < |urls| && fuel >= |urls| - k
    requires forall i | 0 <= i < |urls| :: Linked(get, urls, answers, i)
    ensures Followed(get, urls[k], fuel) == answers[k..]
    decreases fuel
  {
    assert Linked(get, urls, answers, k);
    if k + 1 < |urls| {
      FollowedChain(get, urls, answers, k + 1, fuel - 1);
      assert answers[k..] == [answers[k]] + answers[k + 1..];
    } else {
      assert answers[k..] == [answers[k]];
    }
  }

  /** The handler's page and the link that the client's parser reads as next in the text of its header,
      whether or not it then accepts the header; for a URL on this server. */
  function Visit<T>(list: seq<T>): string -> Option<(seq<T>, string)> {
    (url: string) =>
      var i := IndexOf(url, '?');
      Reply(list, url[..i], if i < |url| then url[i + 1..] else "")
  }

  function Reply<T>(list: seq<T>, path: string, query: string): Option<(seq<T>, string)> {
    match ParsePagination(query)
    case BadRequest => None
    case Params(page, perPage) =>
      AcceptedPagination(query);
      match Handled(list, page, perPage)
      case OutOfRange => None
      case Data(items) => Some((items, Unmarshal(HeaderOf(path, page, perPage, |list|), NO_LINKS).1.next))
  }

  /** The pages that are there to visit: at least one, even of an empty list. */
  function PageCount(total: nat, perPage: nat): (n: nat)
    requires perPage > 0
    ensures n >= 1
    ensures (n - 1) * perPage <= total <= n * perPage
  {
    TotalPagesBounds(total, perPage);
    if total == 0 then 1 else TotalPages(total, perPage)
  }

  lemma PageFits(total: nat, page: nat, perPage: nat)
    requires perPage >= 1 && 1 <= page <= PageCount(total, perPage)
    ensures 0 <= (page - 1) * perPage <= total && page - 1 <= total
  {
    MultipleAtMost(0, page - 1, perPage);
    MultipleAtMost(page - 1, PageCount(total, perPage) - 1, perPage);
    MultipleAtMost(1, perPage, page - 1);
  }

  lemma PageIsSafe(total: nat, page: nat, perPage: nat)
    requires 1 <= perPage <= 100 && 1 <= page <= PageCount(total, perPage) && total <= MAX_INT64 - 100
    ensures SliceSafe(total, page, perPage) && page <= MAX_INT64
  {
    PageFits(total, page, perPage);
  }

  lemma ReplyAt<T>(list: seq<T>, path: string, page: nat, perPage: nat)
    requires CleanPath(path) && 1 <= perPage <= 100 && |list| <= MAX_INT64 - 100
    requires 1 <= page <= PageCount(|list|, perPage)
    ensures Reply(list, path, QueryOf(page, perPage)) ==
            Some((PageOf(list, page, perPage),
                  if page < PageCount(|list|, perPage) then LinkURL(path, page + 1, perPage) else ""))
  {
    PageIsSafe(|list|, page, perPage);
    PageMeaning(list, page, perPage);
    ParseQueryOf(page, perPage);
    HeaderUnderstood(path, page, perPage, |list|);
  }

  lemma VisitCut<T>(list: seq<T>, path: string, query: string)
    requires '?' !in path
    ensures Visit(list)(path + "?" + query) == Reply(list, path, query)
  {
    CutAt(path, query);
  }

  lemma VisitAt<T>(list: seq<T>, path: string, n: nat, page: nat, perPage: nat, url: string, next: string)
    requires CleanPath(path) && 1 <= perPage <= 100 && |list| <= MAX_INT64 - 100
    requires n == PageCount(|list|, perPage) && 1 <= page <= n && url == LinkURL(path, page, perPage)
    requires next == if page < n then LinkURL(path, page + 1, perPage) else ""
    ensures url != ""
    ensures Visit(list)(url) == Some((PageOf(list, page, perPage), next))
  {
    ReplyAt(list, path, page, perPage);
    VisitCut(list, path, QueryOf(page, perPage));
  }

  /** Main result, crawl: following the next links of the header texts from page 1 visits every page once,
      in order, and stops; put together the visited pages are the list. */
  lemma FollowedAll<T>(list: seq<T>, path: string, perPage: nat, fuel: nat)
    requires CleanPath(path) && 1 <= perPage <= 100 && |list| <= MAX_INT64 - 100
    requires fuel >= PageCount(|list|, perPage)
    ensures var visited := Followed(Visit(list), LinkURL(path, 1, perPage), fuel);
            && |visited| == PageCount(|list|, perPage)
            && (forall k | 0 <= k < |visited| :: visited[k] == PageOf(list, k + 1, perPage))
            && Concat(visited) == list
  {
    FollowedPages(list, path, PageCount(|list|, perPage), perPage, 1, fuel);
    CountedPages(list, perPage);
    PagesFromAt(list, PageCount(|list|, perPage), perPage);
  }

  lemma FollowedPages<T>(list: seq<T>, path: string, n: nat, perPage: nat, first: nat, fuel: nat)
    requires CleanPath(path) && 1 <= perPage <= 100 && |list| <= MAX_INT64 - 100
    requires n == PageCount(|list|, perPage) && fuel >= n && first == 1
    ensures Followed(Visit(list), LinkURL(path, first, perPage), fuel) == PagesFrom(list, 1, n, perPage)
  {
    ChainOfPages(list, path, n, perPage);
    FollowedWhole(Visit(list), PageURLs(path, n, perPage), PagesFrom(list, 1, n, perPage), fuel);
    PageURLAt(path, n, perPage, 0, first);
  }

  lemma PagesFromAt<T>(list: seq<T>, n: nat, perPage: int)
    requires perPage >= 1
    ensures |PagesFrom(list, 1, n, perPage)| == n
    ensures forall k | 0 <= k < n :: PagesFrom(list, 1, n, perPage)[k] == PageOf(list, k + 1, perPage)
  {
  }

  lemma CountedPages<T>(list: seq<T>, perPage: nat)
    requires perPage >= 1
    ensures Concat(PagesFrom(list, 1, PageCount(|list|, perPage), perPage)) == list
  {
    if |list| == 0 {
      OnlyPage(list, 1, perPage);
    } else {
      PagesPartition(list, perPage);
    }
  }

  lemma OnlyPage<T>(list: seq<T>, page: int, perPage: nat)
    requires perPage >= 1 && page >= 1
    ensures Concat(PagesFrom(list, page, 1, perPage)) == PageOf(list, page, perPage)
  {
    PagesHead(list, page, 1, perPage);
    assert PagesFrom(list, page + 1, 0, perPage) == [];
  }

  lemma PageURLAt(path: string, n: nat, perPage: nat, i: nat, page: nat)
    requires i < n && page == i + 1
    ensures PageURLs(path, n, perPage)[i] == LinkURL(path, page, perPage)
  {
  }

  lemma FollowedWhole<A>(get: string -> Option<(A, string)>, urls: seq<string>, answers: seq<A>, fuel: nat)
    requires |urls| == |answers| && 1 <= |urls| <= fuel
    requires forall i | 0 <= i < |urls| :: Linked(get, urls, answers, i)
    ensures Followed(get, urls[0], fuel) == answers
  {
    FollowedChain(get, urls, answers, 0, fuel);
    assert answers[0..] == answers;
  }

  function PageURLs(path: string, n: nat, perPage: nat): seq<string> {
    seq(n, i requires 0 <= i < n => LinkURL(path, i + 1, perPage))
  }

  lemma ChainOfPages<T>(list: seq<T>, path: string, n: nat, perPage: nat)
    requires CleanPath(path) && 1 <= perPage <= 100 && |list| <= MAX_INT64 - 100 && n == PageCount(|list|, perPage)
    ensures |PagesFrom(list, 1, n, perPage)| == n
    ensures forall i | 0 <= i < n :: Linked(Visit(list), PageURLs(path, n, perPage), PagesFrom(list, 1, n, perPage), i)
  {
    forall i | 0 <= i < n ensures Linked(Visit(list), PageURLs(path, n, perPage), PagesFrom(list, 1, n, perPage), i) {
      LinkedAt(list, path, n, perPage, i, PagesFrom(list, 1, n, perPage));
    }
  }

  lemma LinkedAt<T>(list: seq<T>, path: string, n: nat, perPage: nat, i: nat, pages: seq<seq<T>>)
    requires CleanPath(path) && 1 <= perPage <= 100 && |list| <= MAX_INT64 - 100 && n == PageCount(|list|, perPage)
    requires i < n == |pages| && pages == PagesFrom(list, 1, n, perPage)
    ensures Linked(Visit(list), PageURLs(path, n, perPage), pages, i)
  {
    var urls, page := PageURLs(path, n, perPage), i + 1;
    PageURLAt(path, n, perPage, i, page);
    if page < n {
      PageURLAt(path, n, perPage, page, page + 1);
    }
    VisitAt(list, path, n, page, perPage, urls[i], if page < n then urls[page] else "");
    assert pages[i] == PageOf(list, page, perPage);
    MakeLinked(Visit(list), urls, pages, i, if page < n then urls[page] else "");
  }

  lemma MakeLinked<A>(get: string -> Option<(A, string)>, urls: seq<string>, answers: seq<A>, i: nat, next: string)
    requires |urls| == |answers| && i < |urls| && urls[i] != ""
    requires next == if i + 1 < |urls| then urls[i + 1] else ""
    requires get(urls[i]) == Some((answers[i], next))
    ensures Linked(get, urls, answers, i)
  {
  }
}
