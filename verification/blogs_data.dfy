/** Blog post lookups (lib/data/blogs.ts), over an explicitly passed catalogue. */
module BlogsData {

  import opened Wrappers
  import opened Seqs
  import opened StableSort
  import opened Types

  function PublishedKey(p: BlogPost): real
  {
    p.publishedAt as real
  }

  /** Newest first; posts published at the same instant keep catalogue order. */
  function GetAllBlogPosts(catalogue: seq<BlogPost>): (r: seq<BlogPost>)
    ensures |r| == |catalogue| && multiset(r) == multiset(catalogue)
    ensures forall i, j :: 0 <= i < j < |r| ==> r[i].publishedAt >= r[j].publishedAt
    ensures StableWrt(r, catalogue, PublishedKey)
  {
    SortByKeyDesc(catalogue, PublishedKey)
  }

  function HasSlug(slug: string): BlogPost -> bool
  {
    (p: BlogPost) => p.slug == slug
  }

  /** The first post with that slug; none exactly when no post has it. */
  function GetBlogPostBySlug(catalogue: seq<BlogPost>, slug: string): (r: Option<BlogPost>)
    ensures r.Some? ==> r.value.slug == slug && r.value in catalogue
    ensures r.Some? ==> exists i :: 0 <= i < |catalogue| && catalogue[i] == r.value
                                    && forall j :: 0 <= j < i ==> catalogue[j].slug != slug
    ensures r.None? <==> forall i :: 0 <= i < |catalogue| ==> catalogue[i].slug != slug
  {
    FindFirst(catalogue, HasSlug(slug))
  }
}
