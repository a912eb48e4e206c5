/**
 * The page arithmetic shared by the comment, community-post and video listings:
 * skip = (page - 1) * limit, totalPages = ceil(total / limit), and a page is the
 * skip/limit slice of the sorted result.
 */
module Pagination {

  /** Records passed over before the requested page. */
  function Skip(page: nat, limit: nat): (r: nat)
    requires page >= 1
  {
    (page - 1) * limit
  }

  /** Math.ceil(total / limit): the least number of pages of size limit that hold total records. */
  function TotalPages(total: nat, limit: nat): (r: nat)
    requires limit >= 1
    ensures r * limit >= total
    ensures r == 0 || (r - 1) * limit < total
  {
    var q := (total + limit - 1) / limit;
    var m := (total + limit - 1) % limit;
    assert total + limit - 1 == q * limit + m;
    assert q * limit - limit == (q - 1) * limit;
    q
  }

  function Min(a: nat, b: nat): nat { if a <= b then a else b }

  /** .skip(skip).limit(limit) applied to the sorted records. */
  function Page<T>(s: seq<T>, page: nat, limit: nat): (r: seq<T>)
    requires page >= 1 && limit >= 1
    ensures |r| <= limit
    ensures forall k | 0 <= k < |r| :: Skip(page, limit) + k < |s| && r[k] == s[Skip(page, limit) + k]
    ensures |r| == Min(limit, |s| - Min(Skip(page, limit), |s|))
  {
    var from := Min(Skip(page, limit), |s|);
    var to := Min(Skip(page, limit) + limit, |s|);
    s[from..to]
  }

  lemma MulMonotone(a: nat, b: nat, c: nat)
    requires a <= b
    ensures a * c <= b * c
  {
  }

  /** A page holds records exactly when its number is between 1 and totalPages; later pages are empty, not errors. */
  lemma PageNonEmptyIff<T>(s: seq<T>, page: nat, limit: nat)
    requires page >= 1 && limit >= 1
    ensures |Page(s, page, limit)| > 0 <==> page <= TotalPages(|s|, limit)
  {
    var n := TotalPages(|s|, limit);
    if page <= n {
      MulMonotone(page - 1, n - 1, limit);
    } else {
      MulMonotone(n, page - 1, limit);
    }
  }

  /** Every record sits on exactly one page: record k is item k % limit of page k / limit + 1. */
  lemma RecordOnItsPage<T>(s: seq<T>, limit: nat, k: nat)
    requires limit >= 1 && k < |s|
    ensures k / limit + 1 <= TotalPages(|s|, limit)
    ensures k % limit < |Page(s, k / limit + 1, limit)|
    ensures Page(s, k / limit + 1, limit)[k % limit] == s[k]
  {
    var page := k / limit + 1;
    assert Skip(page, limit) == (k / limit) * limit;
    assert k == (k / limit) * limit + k % limit;
    PageNonEmptyIff(s, page, limit);
  }

  /** 25 records at 10 per page make 3 pages; the third holds 5, the fourth none. */
  lemma TwentyFiveByTen<T>(s: seq<T>)
    requires |s| == 25
    ensures TotalPages(25, 10) == 3
    ensures Page(s, 3, 10) == s[20..25]
    ensures Page(s, 4, 10) == []
  {
  }
}
