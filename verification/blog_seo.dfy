/**
 The blog relevance matcher (lib/blog-seo.ts): the tokenizer behind
 related posts, the related posts of a post, the cities a post is about,
 the posts a city page links to, the refresh schedule of a guide, and its
 FAQ questions. The clock is a parameter.
 */
module BlogSeo {

  import opened Wrappers
  import opened Seqs
  import opened StableSort
  import opened Types
  import opened Strings
  import Scoring

  // ---------------------------------------------------------------------
  // Tokenizer
  // ---------------------------------------------------------------------

  const StopWords: set<string> :=
    {"the", "and", "for", "with", "from", "into", "your", "best", "cities", "city", "guide", "how", "2026"}

  /** The characters `[a-z0-9-]` a token is made of. */
  predicate TokenChar(c: char)
  {
    'a' <= c <= 'z' || '0' <= c <= '9' || c == '-'
  }

  /** `.replace(/[^a-z0-9\s-]/g, " ")` on one character. */
  function ScrubChar(c: char): char
  {
    if TokenChar(c) || IsWhitespace(c) then c else ' '
  }

  function Scrub(s: string): (r: string)
    ensures |r| == |s|
    ensures forall i :: 0 <= i < |s| ==> r[i] == ScrubChar(s[i])
    ensures forall c :: c in r ==> TokenChar(c) || IsWhitespace(c)
  {
    seq(|s|, i requires 0 <= i < |s| => ScrubChar(s[i]))
  }

  predicate NoWhitespace(w: string)
  {
    forall c :: c in w ==> !IsWhitespace(c)
  }

  /** The end of the run of non-whitespace characters that starts at `i`. */
  function WordEnd(s: string, i: nat): (k: nat)
    requires i <= |s|
    ensures i <= k <= |s|
    ensures forall m :: i <= m < k ==> !IsWhitespace(s[m])
    ensures k < |s| ==> IsWhitespace(s[k])
    decreases |s| - i
  {
    if i == |s| || IsWhitespace(s[i]) then i else WordEnd(s, i + 1)
  }

  /** The end of the run of whitespace that starts at `i`. */
  function GapEnd(s: string, i: nat): (k: nat)
    requires i <= |s|
    ensures i <= k <= |s|
    ensures forall m :: i <= m < k ==> IsWhitespace(s[m])
    ensures k < |s| ==> !IsWhitespace(s[k])
    decreases |s| - i
  {
    if i == |s| || !IsWhitespace(s[i]) then i else GapEnd(s, i + 1)
  }

  /**
   `s` with every maximal run of whitespace replaced by one space: a
   whitespace character is dropped when the next one is whitespace too, and
   otherwise becomes a space.
   */
  function Squeeze(s: string): string
    decreases |s|
  {
    if |s| == 0 then ""
    else if !IsWhitespace(s[0]) then [s[0]] + Squeeze(s[1..])
    else if |s| > 1 && IsWhitespace(s[1]) then Squeeze(s[1..])
    else " " + Squeeze(s[1..])
  }

  /** A run of `i` non-whitespace characters passes through `Squeeze` unchanged. */
  lemma {:induction false} SqueezeWord(s: string, i: nat)
    requires i <= |s|
    requires forall m :: 0 <= m < i ==> !IsWhitespace(s[m])
    ensures Squeeze(s) == s[..i] + Squeeze(s[i..])
    decreases i
  {
    if i > 0 {
      SqueezeWord(s[1..], i - 1);
      assert s[1..][..i - 1] == s[1..i];
      assert s[1..][i - 1..] == s[i..];
      assert s[..i] == [s[0]] + s[1..i];
    }
  }

  /** A maximal run of whitespace from `i` to `j` becomes one space. */
  lemma {:induction false} SqueezeGap(s: string, i: nat, j: nat)
    requires i < j <= |s|
    requires forall m :: i <= m < j ==> IsWhitespace(s[m])
    requires j < |s| ==> !IsWhitespace(s[j])
    ensures Squeeze(s[i..]) == " " + Squeeze(s[j..])
    decreases j - i
  {
    assert s[i..][1..] == s[i + 1..];
    if j > i + 1 {
      SqueezeGap(s, i + 1, j);
    }
  }

  /**
   `s.split(/\s+/)`: the pieces between maximal runs of whitespace. Leading
   or trailing whitespace yields an empty first or last piece, and the empty
   string splits into one empty piece. Joined with single spaces, the pieces
   give `s` with each run of whitespace squeezed to one space.
   */
  function SplitWhitespace(s: string): (r: seq<string>)
    ensures |r| >= 1
    ensures forall k :: 0 <= k < |r| ==> NoWhitespace(r[k])
    ensures forall k, c :: 0 <= k < |r| && c in r[k] ==> c in s
    ensures Join(r, " ") == Squeeze(s)
    decreases |s|
  {
    var i := WordEnd(s, 0);
    SqueezeWord(s, i);
    if i == |s| then
      assert forall c :: c in s ==> !IsWhitespace(c);
      assert s[i..] == "";
      [s]
    else
      var j := GapEnd(s, i);
      var rest := SplitWhitespace(s[j..]);
      SplitStep(s, i, j, rest);
      [s[..i]] + rest
  }

  /** A word, then a gap, then the split of the rest: the split of the whole. */
  lemma SplitStep(s: string, i: nat, j: nat, rest: seq<string>)
    requires i < j <= |s|
    requires forall m :: 0 <= m < i ==> !IsWhitespace(s[m])
    requires forall m :: i <= m < j ==> IsWhitespace(s[m])
    requires j < |s| ==> !IsWhitespace(s[j])
    requires Squeeze(s) == s[..i] + Squeeze(s[i..])
    requires |rest| >= 1
    requires forall k :: 0 <= k < |rest| ==> NoWhitespace(rest[k])
    requires forall k, c :: 0 <= k < |rest| && c in rest[k] ==> c in s[j..]
    requires Join(rest, " ") == Squeeze(s[j..])
    ensures var r := [s[..i]] + rest;
            && (forall k :: 0 <= k < |r| ==> NoWhitespace(r[k]))
            && (forall k, c :: 0 <= k < |r| && c in r[k] ==> c in s)
            && Join(r, " ") == Squeeze(s)
  {
    var r := [s[..i]] + rest;
    SqueezeGap(s, i, j);
    JoinCons(s[..i], rest, " ");
    assert NoWhitespace(r[0]) by {
      assert forall c :: c in s[..i] ==> !IsWhitespace(c);
    }
    forall k | 1 <= k < |r|
      ensures NoWhitespace(r[k])
    {
      assert r[k] == rest[k - 1];
    }
    forall k, c | 0 <= k < |r| && c in r[k]
      ensures c in s
    {
      if k > 0 {
        assert r[k] == rest[k - 1];
        assert c in s[j..];
      }
    }
  }

  predicate KeepToken(t: string)
  {
    t != "" && t !in StopWords
  }

  /**
   `tokenize`: lowercase, blank out everything but letters, digits, hyphens
   and whitespace, split on whitespace, and drop empty pieces and stop
   words. The program's `trim` leaves every piece as it is, since no piece
   holds whitespace. The tokens are the kept pieces of the split text, in
   order, each as often as it occurs there.
   */
  function Tokenize(text: string): (r: seq<string>)
    ensures forall k :: 0 <= k < |r| ==> r[k] != "" && r[k] !in StopWords
    ensures forall k :: 0 <= k < |r| ==> forall c :: c in r[k] ==> TokenChar(c)
    ensures IsSubsequence(r, SplitWhitespace(Scrub(Lower(text))))
    ensures forall w :: KeepToken(w) ==> multiset(r)[w] == multiset(SplitWhitespace(Scrub(Lower(text))))[w]
  {
    var scrubbed := Scrub(Lower(text));
    var pieces := SplitWhitespace(scrubbed);
    var r := Filter(pieces, KeepToken);
    FilterMembers(pieces, KeepToken);
    forall k, c | 0 <= k < |r| && c in r[k]
      ensures TokenChar(c)
    {
      assert r[k] in pieces;
      var m :| 0 <= m < |pieces| && pieces[m] == r[k];
      assert c in scrubbed && !IsWhitespace(c);
    }
    r
  }

  /** Every character of the words joined by single spaces is a token character or that space. */
  lemma {:induction false} JoinedTokenChars(ws: seq<string>)
    requires forall k :: 0 <= k < |ws| ==> forall c :: c in ws[k] ==> TokenChar(c)
    ensures forall c :: c in Join(ws, " ") ==> TokenChar(c) || c == ' '
    decreases |ws|
  {
    if |ws| > 1 {
      JoinedTokenChars(ws[1..]);
      assert Join(ws, " ") == ws[0] + " " + Join(ws[1..], " ");
    }
  }

  /** The space that follows the first word of a join. */
  lemma JoinSpaceAt(ws: seq<string>)
    requires |ws| > 1
    ensures Join(ws, " ") == ws[0] + " " + Join(ws[1..], " ")
    ensures |Join(ws, " ")| > |ws[0]| && Join(ws, " ")[|ws[0]|] == ' '
  {
  }

  lemma NotSpaceInWord(w: string, i: int)
    requires NoWhitespace(w) && 0 <= i < |w|
    ensures w[i] != ' '
  {
    assert w[i] in w;
  }

  /** Whitespace-free words joined by single spaces can be read back in one way only. */
  lemma {:induction false} JoinSpacesInjective(a: seq<string>, b: seq<string>)
    requires |a| >= 1 && |b| >= 1
    requires forall k :: 0 <= k < |a| ==> NoWhitespace(a[k])
    requires forall k :: 0 <= k < |b| ==> NoWhitespace(b[k])
    requires Join(a, " ") == Join(b, " ")
    ensures a == b
    decreases |a|
  {
    var s := Join(a, " ");
    if |a| == 1 && |b| == 1 {
    } else if |a| == 1 {
      JoinSpaceAt(b);
      NotSpaceInWord(a[0], |b[0]|);
      assert false;
    } else if |b| == 1 {
      JoinSpaceAt(a);
      NotSpaceInWord(b[0], |a[0]|);
      assert false;
    } else {
      JoinSpaceAt(a);
      JoinSpaceAt(b);
      if |a[0]| < |b[0]| {
        NotSpaceInWord(b[0], |a[0]|);
        assert false;
      } else if |b[0]| < |a[0]| {
        NotSpaceInWord(a[0], |b[0]|);
        assert false;
      } else {
        assert s == a[0] + " " + Join(a[1..], " ");
        assert s == b[0] + " " + Join(b[1..], " ");
        assert a[0] == s[..|a[0]|];
        assert b[0] == s[..|b[0]|];
        assert a[0] == b[0];
        assert Join(a[1..], " ") == s[|a[0]| + 1..] == Join(b[1..], " ");
        assert forall k :: 0 <= k < |a[1..]| ==> a[1..][k] == a[k + 1];
        assert forall k :: 0 <= k < |b[1..]| ==> b[1..][k] == b[k + 1];
        JoinSpacesInjective(a[1..], b[1..]);
        assert a == [a[0]] + a[1..] && b == [b[0]] + b[1..];
      }
    }
  }

  /**
   The contract of `SplitWhitespace` pins it down: any whitespace-free pieces
   that join with single spaces to the squeezed text are its split.
   */
  lemma SplitWhitespaceUnique(s: string, ws: seq<string>)
    requires |ws| >= 1
    requires forall k :: 0 <= k < |ws| ==> NoWhitespace(ws[k])
    requires Join(ws, " ") == Squeeze(s)
    ensures ws == SplitWhitespace(s)
  {
    JoinSpacesInjective(ws, SplitWhitespace(s));
  }

  /** A whitespace-free word in front passes through `Squeeze` unchanged. */
  lemma {:induction false} SqueezeAppendWord(w: string, x: string)
    requires NoWhitespace(w)
    ensures Squeeze(w + x) == w + Squeeze(x)
    decreases |w|
  {
    if |w| > 0 {
      assert w[0] in w;
      assert forall c :: c in w[1..] ==> c in w;
      assert (w + x)[0] == w[0] && (w + x)[1..] == w[1..] + x;
      SqueezeAppendWord(w[1..], x);
      assert Squeeze(w + x) == [w[0]] + (w[1..] + Squeeze(x));
      assert w == [w[0]] + w[1..];
    } else {
      assert w + x == x;
    }
  }

  /** The words after the first, joined, start with a non-whitespace character. */
  lemma JoinedTailHead(ws: seq<string>)
    requires |ws| > 1
    requires forall k :: 0 <= k < |ws| ==> ws[k] != "" && NoWhitespace(ws[k])
    ensures |Join(ws[1..], " ")| > 0 && !IsWhitespace(Join(ws[1..], " ")[0])
  {
    var tail := Join(ws[1..], " ");
    assert ws[1..][0] == ws[1];
    if |ws[1..]| > 1 {
      JoinSpaceAt(ws[1..]);
    }
    assert tail[0] == ws[1][0];
    assert ws[1][0] in ws[1];
  }

  /** Non-empty whitespace-free words joined by single spaces are already squeezed. */
  lemma {:induction false} SqueezeJoined(ws: seq<string>)
    requires |ws| >= 1
    requires forall k :: 0 <= k < |ws| ==> ws[k] != "" && NoWhitespace(ws[k])
    ensures Squeeze(Join(ws, " ")) == Join(ws, " ")
    decreases |ws|
  {
    var w := ws[0];
    if |ws| == 1 {
      SqueezeAppendWord(w, "");
      assert w + "" == w;
    } else {
      var tail := Join(ws[1..], " ");
      JoinSpaceAt(ws);
      JoinedTailHead(ws);
      assert w + " " + tail == w + (" " + tail);
      SqueezeAppendWord(w, " " + tail);
      assert (" " + tail)[1..] == tail && (" " + tail)[1] == tail[0];
      assert Squeeze(" " + tail) == " " + Squeeze(tail);
      assert forall k :: 0 <= k < |ws[1..]| ==> ws[1..][k] == ws[k + 1];
      SqueezeJoined(ws[1..]);
    }
  }

  /** Splitting non-empty whitespace-free words joined by single spaces gives the words back. */
  lemma SplitJoin(ws: seq<string>)
    requires |ws| >= 1
    requires forall k :: 0 <= k < |ws| ==> ws[k] != "" && NoWhitespace(ws[k])
    ensures SplitWhitespace(Join(ws, " ")) == ws
  {
    SqueezeJoined(ws);
    SplitWhitespaceUnique(Join(ws, " "), ws);
  }

  /** Text made only of token characters and spaces is untouched by lowercasing and scrubbing. */
  lemma CleanTextFixed(s: string)
    requires forall c :: c in s ==> TokenChar(c) || c == ' '
    ensures Scrub(Lower(s)) == s
  {
    assert Lower(s) == s by {
      forall i | 0 <= i < |s|
        ensures Lower(s)[i] == s[i]
      {
        assert s[i] in s;
      }
    }
    forall i | 0 <= i < |s|
      ensures Scrub(s)[i] == s[i]
    {
      assert s[i] in s;
    }
  }

  /** Tokenizing the tokens again, joined by spaces, gives the same tokens. */
  lemma TokenizeIdempotent(text: string)
    ensures Tokenize(Join(Tokenize(text), " ")) == Tokenize(text)
  {
    var ts := Tokenize(text);
    var s := Join(ts, " ");
    JoinedTokenChars(ts);
    CleanTextFixed(s);
    if |ts| == 0 {
      assert SplitWhitespace(s) == [""];
      assert Filter([""], KeepToken) == [];
    } else {
      forall k | 0 <= k < |ts|
        ensures NoWhitespace(ts[k])
      {
        forall c | c in ts[k]
          ensures !IsWhitespace(c)
        {
          assert TokenChar(c);
        }
      }
      SplitJoin(ts);
      FilterAll(ts, KeepToken);
    }
  }

  /** The capital is lowered and the comma becomes a space. */
  lemma ScrubExample()
    ensures Scrub(Lower("Visa, 2026")) == "visa  2026"
  {
    assert Lower("Visa, 2026") == "visa, 2026";
  }

  /** A double space is one separator. */
  lemma SplitExample(s: string)
    requires s == "visa  2026"
    ensures SplitWhitespace(s) == ["visa", "2026"]
  {
    var ws := ["visa", "2026"];
    SqueezeWord(s, 4);
    SqueezeGap(s, 4, 6);
    var rest := s[6..];
    assert s[..4] == "visa" && s[4..][2..] == rest && rest == "2026";
    SqueezeWord(rest, 4);
    assert rest[..4] == "2026" && rest[4..] == "";
    assert Join(ws, " ") == "visa 2026" == Squeeze(s);
    SplitWhitespaceUnique(s, ws);
  }

  /** Of the two pieces, the year is a stop word. */
  lemma KeepExample()
    ensures Filter(["visa", "2026"], KeepToken) == ["visa"]
  {
    assert KeepToken("visa") && !KeepToken("2026");
    var s: seq<string> := ["visa", "2026"];
    assert s[1..] == ["2026"] && s[1..][1..] == [];
  }

  /** Capitals and punctuation do not survive, and the stop word "2026" is dropped. */
  lemma TokenizeExample()
    ensures Tokenize("Visa, 2026") == ["visa"]
  {
    ScrubExample();
    SplitExample("visa  2026");
    KeepExample();
  }

  // ---------------------------------------------------------------------
  // Related posts
  // ---------------------------------------------------------------------

  /** `tags.map((tag) => tag.toLowerCase())`: a tag stays one token, spaces and all. */
  function LowerTags(tags: seq<string>): (r: seq<string>)
    ensures |r| == |tags|
    ensures forall i :: 0 <= i < |tags| ==> r[i] == Lower(tags[i])
  {
    seq(|tags|, i requires 0 <= i < |tags| => Lower(tags[i]))
  }

  /** `new Set(s)` in iteration order: each value once, at its first occurrence. */
  function Dedup(s: seq<string>): (r: seq<string>)
    ensures forall x :: x in r <==> x in s
    ensures forall i, j :: 0 <= i < j < |r| ==> r[i] != r[j]
    decreases |s|
  {
    if |s| == 0 then []
    else
      var init := s[..|s| - 1];
      var last := s[|s| - 1];
      assert s == init + [last];
      var d := Dedup(init);
      if last in d then d else d + [last]
  }

  /** The values of a sequence. */
  function ToSet(s: seq<string>): set<string>
  {
    set x | x in s
  }

  /** The topic tokens of a post, as the list they are collected from. */
  function TopicList(post: BlogPost): seq<string>
  {
    Tokenize(post.title) + Tokenize(post.targetKeyword) + LowerTags(post.tags)
  }

  /** The token set of a post in the order the program's `Set` iterates it. */
  function TopicTokens(post: BlogPost): seq<string>
  {
    Dedup(TopicList(post))
  }

  /** The `forEach` count: how many of `mine` occur in `theirs`. */
  function CountShared(mine: seq<string>, theirs: seq<string>): (n: nat)
    ensures n <= |mine|
    decreases |mine|
  {
    if |mine| == 0 then 0
    else (if mine[0] in theirs then 1 else 0) + CountShared(mine[1..], theirs)
  }

  /** Counting a duplicate-free list against another is the size of their intersection. */
  lemma {:induction false} CountSharedIsIntersection(mine: seq<string>, theirs: seq<string>)
    requires forall i, j :: 0 <= i < j < |mine| ==> mine[i] != mine[j]
    ensures CountShared(mine, theirs) == |ToSet(mine) * ToSet(theirs)|
    decreases |mine|
  {
    if |mine| > 0 {
      var x := mine[0];
      var rest := mine[1..];
      CountSharedIsIntersection(rest, theirs);
      ToSetCons(mine);
      var both := ToSet(rest) * ToSet(theirs);
      assert x !in both;
      if x in theirs {
        assert ToSet(mine) * ToSet(theirs) == both + {x};
      } else {
        assert ToSet(mine) * ToSet(theirs) == both;
      }
    }
  }

  lemma ToSetCons(s: seq<string>)
    requires |s| > 0
    ensures ToSet(s) == {s[0]} + ToSet(s[1..])
  {
    assert s == [s[0]] + s[1..];
  }

  /** The related-post score of `post` against `current`. */
  function Overlap(current: BlogPost, post: BlogPost): (n: nat)
    ensures n == |ToSet(TopicList(current)) * ToSet(TopicList(post))|
  {
    CountDedup(TopicList(current), TopicList(post));
    CountShared(TopicTokens(current), TopicTokens(post))
  }

  /** The set a sequence's values make does not change when duplicates are dropped. */
  lemma CountDedup(xs: seq<string>, ys: seq<string>)
    ensures CountShared(Dedup(xs), Dedup(ys)) == |ToSet(xs) * ToSet(ys)|
  {
    CountSharedIsIntersection(Dedup(xs), Dedup(ys));
    assert ToSet(Dedup(xs)) == ToSet(xs);
    assert ToSet(Dedup(ys)) == ToSet(ys);
  }

  /** Relatedness does not depend on which post is the current one. */
  lemma OverlapSymmetric(a: BlogPost, b: BlogPost)
    ensures Overlap(a, b) == Overlap(b, a)
  {
    assert ToSet(TopicList(a)) * ToSet(TopicList(b)) == ToSet(TopicList(b)) * ToSet(TopicList(a));
  }

  /** A tag counts as one token, lowercased whole, even when it holds a space or is a stop word. */
  lemma TagIsOneToken(post: BlogPost, i: nat)
    requires i < |post.tags|
    ensures Lower(post.tags[i]) in ToSet(TopicList(post))
  {
    assert LowerTags(post.tags)[i] == Lower(post.tags[i]);
  }

  function OverlapKey(current: BlogPost): BlogPost -> real
  {
    (p: BlogPost) => Overlap(current, p) as real
  }

  function OtherPost(slug: string): BlogPost -> bool
  {
    (p: BlogPost) => p.slug != slug
  }

  /**
   `getRelatedPosts`: the other posts, ranked by shared topic tokens with
   ties in catalogue order, cut to `limit`.
   */
  function GetRelatedPosts(current: BlogPost, posts: seq<BlogPost>, limit: nat): (r: seq<BlogPost>)
    ensures StableTop(r, Filter(posts, OtherPost(current.slug)), OverlapKey(current), limit)
    ensures |r| <= limit
    ensures forall i :: 0 <= i < |r| ==> r[i].slug != current.slug && r[i] in posts
    ensures forall i, j :: 0 <= i < j < |r| ==> Overlap(current, r[i]) >= Overlap(current, r[j])
  {
    var others := Filter(posts, OtherPost(current.slug));
    var r := TopByKey(others, OverlapKey(current), limit);
    StableTopMembers(r, others, OverlapKey(current), limit);
    FilterMembers(posts, OtherPost(current.slug));
    forall i | 0 <= i < |r|
      ensures r[i].slug != current.slug && r[i] in posts
    {
      assert r[i] in others;
      assert OtherPost(current.slug)(r[i]);
    }
    r
  }

  // ---------------------------------------------------------------------
  // Related cities of a post
  // ---------------------------------------------------------------------

  /** The title, excerpt and paragraphs of a post, lowercased. */
  function PostText(post: BlogPost): string
  {
    Lower(post.title + " " + post.excerpt + " " + Join(post.content, " "))
  }

  /** The text names the city or its country (an empty name matches any text). */
  function Mentions(text: string): City -> bool
  {
    (c: City) => Contains(text, Lower(c.name)) || Contains(text, Lower(c.country))
  }

  /**
   The cities the post mentions, in catalogue order: every catalogue city
   whose lower-cased name or country occurs in the lower-cased text, as
   often as it occurs in the catalogue, and no other.
   */
  function DirectMatches(post: BlogPost, cities: seq<City>): (r: seq<City>)
    ensures IsSubsequence(r, cities)
    ensures forall i :: 0 <= i < |r| ==>
              Contains(PostText(post), Lower(r[i].name)) || Contains(PostText(post), Lower(r[i].country))
    ensures forall c: City :: Contains(PostText(post), Lower(c.name)) || Contains(PostText(post), Lower(c.country)) ==>
              multiset(r)[c] == multiset(cities)[c]
    ensures forall c: City :: !Contains(PostText(post), Lower(c.name)) && !Contains(PostText(post), Lower(c.country)) ==>
              c !in r
  {
    Filter(cities, Mentions(PostText(post)))
  }

  function RealMin(a: real, b: real): real
  {
    if a <= b then a else b
  }

  // ---------------------------------------------------------------------
  // Tag groups
  // ---------------------------------------------------------------------

  /** The four groups of tags both city scorers key on. */
  datatype TagGroup = RemoteWork | Budget | Safety | Healthcare

  /** The tags that put a post in a group. */
  function GroupTags(g: TagGroup): set<string>
  {
    match g
    case RemoteWork => {"remote work", "digital nomad"}
    case Budget => {"budget", "cost of living"}
    case Safety => {"safety"}
    case Healthcare => {"healthcare"}
  }

  /** The post carries at least one tag of the group. */
  ghost predicate Tagged(post: BlogPost, g: TagGroup)
  {
    exists t :: t in GroupTags(g) && t in post.tags
  }

  /** The affinity a group contributes to the fallback score of a city. */
  function AffinityTerm(c: City, g: TagGroup): real
  {
    match g
    case RemoteWork => c.scores.internet + c.scores.qualityOfLife
    case Budget => 10.0 - RealMin(c.cost.single / 500.0, 10.0)
    case Safety => c.scores.safety
    case Healthcare => c.scores.healthcare
  }

  /** The threshold a city must pass for the group's bonus on a city page. */
  predicate Passes(city: City, g: TagGroup)
  {
    match g
    case RemoteWork => city.scores.internet + city.scores.qualityOfLife > 16.0
    case Budget => city.cost.single <= 1700.0
    case Safety => city.scores.safety >= 7.5
    case Healthcare => city.scores.healthcare >= 7.5
  }

  /** The contribution of a group to a tag score: its term when the post carries it. */
  ghost function Gated(post: BlogPost, g: TagGroup, term: real): real
  {
    if Tagged(post, g) then term else 0.0
  }

  /** Every group, in the order the scorers test them. */
  const AllGroups: seq<TagGroup> := [RemoteWork, Budget, Safety, Healthcare]

  /** How many of `gs` the post carries and the city passes. */
  ghost function Earned(city: City, post: BlogPost, gs: seq<TagGroup>): nat
  {
    if gs == [] then 0
    else (if Tagged(post, gs[0]) && Passes(city, gs[0]) then 1 else 0) + Earned(city, post, gs[1..])
  }

  /** The earned groups, counted one by one. */
  lemma EarnedAll(city: City, post: BlogPost)
    ensures 2 * Earned(city, post, AllGroups) ==
              Bonus(Tagged(post, RemoteWork), Passes(city, RemoteWork))
              + Bonus(Tagged(post, Budget), Passes(city, Budget))
              + Bonus(Tagged(post, Safety), Passes(city, Safety))
              + Bonus(Tagged(post, Healthcare), Passes(city, Healthcare))
  {
    assert AllGroups[1..] == [Budget, Safety, Healthcare];
    assert [Budget, Safety, Healthcare][1..] == [Safety, Healthcare];
    assert [Safety, Healthcare][1..] == [Healthcare];
    assert [Healthcare][1..] == [];
    var h := if Tagged(post, Healthcare) && Passes(city, Healthcare) then 1 else 0;
    var sf := if Tagged(post, Safety) && Passes(city, Safety) then 1 else 0;
    var bu := if Tagged(post, Budget) && Passes(city, Budget) then 1 else 0;
    assert Earned(city, post, [Healthcare]) == h;
    assert Earned(city, post, [Safety, Healthcare]) == sf + h;
    assert Earned(city, post, [Budget, Safety, Healthcare]) == bu + sf + h;
  }

  /** Group membership spelled out tag by tag, as the scorers test it. */
  lemma TaggedGroups(post: BlogPost)
    ensures Tagged(post, RemoteWork) <==> "remote work" in post.tags || "digital nomad" in post.tags
    ensures Tagged(post, Budget) <==> "budget" in post.tags || "cost of living" in post.tags
    ensures Tagged(post, Safety) <==> "safety" in post.tags
    ensures Tagged(post, Healthcare) <==> "healthcare" in post.tags
  {
    if "remote work" in post.tags { assert "remote work" in GroupTags(RemoteWork); }
    if "digital nomad" in post.tags { assert "digital nomad" in GroupTags(RemoteWork); }
    if "budget" in post.tags { assert "budget" in GroupTags(Budget); }
    if "cost of living" in post.tags { assert "cost of living" in GroupTags(Budget); }
    if "safety" in post.tags { assert "safety" in GroupTags(Safety); }
    if "healthcare" in post.tags { assert "healthcare" in GroupTags(Healthcare); }
  }

  /**
   The fallback score of a city for a post: one term per tag group the post
   carries. With every score and the cost in their nominal ranges, each
   group adds 0 to 10 points (0 to 20 for the two remote-work scores), and a
   post with none of the six tags scores every city 0.
   */
  function TagAffinity(post: BlogPost, c: City): (r: real)
    ensures Scoring.InNominalRange(c) && 0.0 <= c.scores.healthcare <= 10.0 ==> 0.0 <= r <= 50.0
    ensures (forall t :: t in post.tags ==>
               t !in {"digital nomad", "remote work", "budget", "cost of living", "healthcare", "safety"})
            ==> r == 0.0
    ensures r == Gated(post, RemoteWork, AffinityTerm(c, RemoteWork)) + Gated(post, Budget, AffinityTerm(c, Budget))
                 + Gated(post, Healthcare, AffinityTerm(c, Healthcare)) + Gated(post, Safety, AffinityTerm(c, Safety))
  {
    TaggedGroups(post);
    (if "digital nomad" in post.tags || "remote work" in post.tags
     then c.scores.internet + c.scores.qualityOfLife else 0.0)
    + (if "budget" in post.tags || "cost of living" in post.tags
       then 10.0 - RealMin(c.cost.single / 500.0, 10.0) else 0.0)
    + (if "healthcare" in post.tags then c.scores.healthcare else 0.0)
    + (if "safety" in post.tags then c.scores.safety else 0.0)
  }

  /** A better and cheaper city never has a lower fallback score. */
  lemma TagAffinityMonotone(post: BlogPost, a: City, b: City)
    requires Dominates(b, a)
    ensures TagAffinity(post, a) <= TagAffinity(post, b)
  {
    assert b.cost.single / 500.0 <= a.cost.single / 500.0;
  }

  /** The budget term stays within [0, 10] for a non-negative cost; a post with no known tag scores 0. */
  lemma TagAffinityBudgetTerm(post: BlogPost, c: City)
    requires c.cost.single >= 0.0
    ensures 0.0 <= 10.0 - RealMin(c.cost.single / 500.0, 10.0) <= 10.0
    ensures (forall t :: t in post.tags ==>
               t !in {"digital nomad", "remote work", "budget", "cost of living", "healthcare", "safety"})
            ==> TagAffinity(post, c) == 0.0
  {
  }

  function AffinityKey(post: BlogPost): City -> real
  {
    (c: City) => TagAffinity(post, c)
  }

  /** `fallbackByTags`: the whole catalogue, by descending tag affinity, ties in catalogue order. */
  function FallbackByTags(post: BlogPost, cities: seq<City>): (r: seq<City>)
    ensures multiset(r) == multiset(cities)
    ensures NonIncreasing(r, AffinityKey(post))
    ensures StableWrt(r, cities, AffinityKey(post))
  {
    SortByKeyDesc(cities, AffinityKey(post))
  }

  function SlugIs(slug: string): City -> bool
  {
    (c: City) => c.slug == slug
  }

  /** Some entry of `s` has the slug. */
  ghost predicate SlugTaken(s: seq<City>, slug: string)
  {
    exists i :: 0 <= i < |s| && s[i].slug == slug
  }

  /**
   One step of the `forEach` that tops up the list: `c` is appended when no
   city in the list has its slug and the list is still shorter than `limit`.
   */
  function Step(merged: seq<City>, c: City, limit: nat): (next: seq<City>)
    ensures next == merged || next == merged + [c]
    ensures next == merged + [c] <==> !SlugTaken(merged, c.slug) && |merged| < limit
  {
    if FindFirst(merged, SlugIs(c.slug)).None? && |merged| < limit then merged + [c] else merged
  }

  /** The whole `forEach`: every city of `ranked`, in order, offered to `Step`. */
  function Backfill(merged: seq<City>, ranked: seq<City>, limit: nat): (r: seq<City>)
    ensures IsPrefix(merged, r)
    ensures |merged| <= limit ==> |r| <= limit
    ensures |merged| >= limit ==> r == merged
    ensures forall j :: |merged| <= j < |r| ==> r[j] in ranked
    decreases |ranked|
  {
    if |ranked| == 0 then merged
    else
      var next := Step(merged, ranked[0], limit);
      var r := Backfill(next, ranked[1..], limit);
      assert forall j :: |next| <= j < |r| ==> r[j] in ranked by {
        forall j | |next| <= j < |r|
          ensures r[j] in ranked
        {
          assert r[j] in ranked[1..];
        }
      }
      r
  }

  /** `c` is in `s`, and no city before its first position carries its slug. */
  ghost predicate FirstWithSlug(s: seq<City>, c: City)
  {
    exists k :: 0 <= k < |s| && s[k] == c && forall m :: 0 <= m < k ==> s[m].slug != c.slug
  }

  /** A first city with a slug in the tail is one in the whole when the head has another slug. */
  lemma FirstWithSlugCons(s: seq<City>, c: City)
    requires |s| > 0 && FirstWithSlug(s[1..], c) && s[0].slug != c.slug
    ensures FirstWithSlug(s, c)
  {
    var k :| 0 <= k < |s[1..]| && s[1..][k] == c && forall m :: 0 <= m < k ==> s[1..][m].slug != c.slug;
    assert s[k + 1] == c;
    forall m | 0 <= m < k + 1
      ensures s[m].slug != c.slug
    {
      if m > 0 {
        assert s[m] == s[1..][m - 1];
      }
    }
  }

  /**
   The top-up without a limit: the cities of `ranked` whose slug is not
   listed yet, in ranking order, each new slug once, through the first city
   that carries it (`NewSlugsCover`, `NewSlugsFirst`).
   */
  function NewSlugs(taken: seq<City>, ranked: seq<City>): (r: seq<City>)
    ensures IsSubsequence(r, ranked)
    ensures forall i :: 0 <= i < |r| ==> r[i] in ranked && !SlugTaken(taken, r[i].slug)
    ensures forall i, j :: 0 <= i < j < |r| ==> r[i].slug != r[j].slug
    decreases |ranked|
  {
    if |ranked| == 0 then []
    else
      var c := ranked[0];
      if FindFirst(taken, SlugIs(c.slug)).Some? then
        NewSlugs(taken, ranked[1..])
      else
        var rest := NewSlugs(taken + [c], ranked[1..]);
        var r := [c] + rest;
        assert r[1..] == rest;
        forall i | 0 <= i < |rest|
          ensures !SlugTaken(taken, rest[i].slug) && rest[i].slug != c.slug
        {
          NotTakenInLonger(taken, c, rest[i].slug);
        }
        r
  }

  /** A slug not taken in `taken + [c]` is neither in `taken` nor `c`'s. */
  lemma NotTakenInLonger(taken: seq<City>, c: City, slug: string)
    requires !SlugTaken(taken + [c], slug)
    ensures !SlugTaken(taken, slug) && c.slug != slug
  {
    assert (taken + [c])[|taken|] == c;
    forall m | 0 <= m < |taken|
      ensures taken[m].slug != slug
    {
      assert (taken + [c])[m] == taken[m];
    }
  }

  /** A new slug is not appended for a city whose slug is already listed. */
  lemma NewSlugsSkip(taken: seq<City>, ranked: seq<City>)
    requires |ranked| > 0 && SlugTaken(taken, ranked[0].slug)
    ensures NewSlugs(taken, ranked) == NewSlugs(taken, ranked[1..])
  {
  }

  /** A city whose slug is not listed yet heads the new slugs. */
  lemma NewSlugsTake(taken: seq<City>, ranked: seq<City>)
    requires |ranked| > 0 && !SlugTaken(taken, ranked[0].slug)
    ensures NewSlugs(taken, ranked) == [ranked[0]] + NewSlugs(taken + [ranked[0]], ranked[1..])
  {
  }

  /** Every slug of the ranking is listed already or among the new slugs. */
  lemma {:induction false} NewSlugsCover(taken: seq<City>, ranked: seq<City>)
    ensures forall k :: 0 <= k < |ranked| ==>
              SlugTaken(taken, ranked[k].slug) || SlugTaken(NewSlugs(taken, ranked), ranked[k].slug)
    decreases |ranked|
  {
    if |ranked| > 0 {
      var c := ranked[0];
      var r := NewSlugs(taken, ranked);
      if SlugTaken(taken, c.slug) {
        NewSlugsSkip(taken, ranked);
        NewSlugsCover(taken, ranked[1..]);
        forall k | 1 <= k < |ranked|
          ensures SlugTaken(taken, ranked[k].slug) || SlugTaken(r, ranked[k].slug)
        {
          assert ranked[k] == ranked[1..][k - 1];
        }
      } else {
        var rest := NewSlugs(taken + [c], ranked[1..]);
        NewSlugsTake(taken, ranked);
        NewSlugsCover(taken + [c], ranked[1..]);
        forall k | 0 <= k < |ranked|
          ensures SlugTaken(taken, ranked[k].slug) || SlugTaken(r, ranked[k].slug)
        {
          if k == 0 {
            assert r[0] == c;
          } else {
            assert ranked[k] == ranked[1..][k - 1];
            if SlugTaken(rest, ranked[k].slug) {
              var m :| 0 <= m < |rest| && rest[m].slug == ranked[k].slug;
              assert r[m + 1] == rest[m];
            } else if ranked[k].slug == c.slug {
              assert r[0] == c;
            } else {
              NotTakenStaysNotTaken(taken, c, ranked[k].slug);
            }
          }
        }
      }
    }
  }

  /** A slug listed in `taken + [c]` but not `c`'s is listed in `taken`. */
  lemma NotTakenStaysNotTaken(taken: seq<City>, c: City, slug: string)
    requires SlugTaken(taken + [c], slug) && c.slug != slug
    ensures SlugTaken(taken, slug)
  {
    var m :| 0 <= m < |taken + [c]| && (taken + [c])[m].slug == slug;
    assert m < |taken|;
    assert taken[m] == (taken + [c])[m];
  }

  /** Each new slug comes in through the first city of the ranking that carries it. */
  lemma {:induction false} NewSlugsFirst(taken: seq<City>, ranked: seq<City>)
    ensures forall i :: 0 <= i < |NewSlugs(taken, ranked)| ==> FirstWithSlug(ranked, NewSlugs(taken, ranked)[i])
    decreases |ranked|
  {
    if |ranked| > 0 {
      var c := ranked[0];
      var r := NewSlugs(taken, ranked);
      if SlugTaken(taken, c.slug) {
        NewSlugsSkip(taken, ranked);
        NewSlugsFirst(taken, ranked[1..]);
        forall i | 0 <= i < |r|
          ensures FirstWithSlug(ranked, r[i])
        {
          assert FirstWithSlug(ranked[1..], r[i]);
          FirstWithSlugCons(ranked, r[i]);
        }
      } else {
        var rest := NewSlugs(taken + [c], ranked[1..]);
        NewSlugsTake(taken, ranked);
        NewSlugsFirst(taken + [c], ranked[1..]);
        forall i | 0 <= i < |r|
          ensures FirstWithSlug(ranked, r[i])
        {
          if i == 0 {
            assert ranked[0] == r[0];
          } else {
            assert r[i] == rest[i - 1];
            assert FirstWithSlug(ranked[1..], rest[i - 1]);
            FirstWithSlugCons(ranked, r[i]);
          }
        }
      }
    }
  }

  /**
   The limit only cuts the top-up short: topping up a list within `limit`
   appends the first `limit - |merged|` cities with new slugs, in ranking order.
   */
  lemma {:induction false} BackfillTruncates(merged: seq<City>, ranked: seq<City>, limit: nat)
    requires |merged| <= limit
    ensures Backfill(merged, ranked, limit) == merged + Take(NewSlugs(merged, ranked), limit - |merged|)
    decreases |ranked|
  {
    if |merged| == limit {
      assert Take(NewSlugs(merged, ranked), 0) == [];
    } else if |ranked| > 0 {
      var c := ranked[0];
      var rest := ranked[1..];
      BackfillStep(merged, ranked, limit);
      if SlugTaken(merged, c.slug) {
        NewSlugsSkip(merged, ranked);
        BackfillTruncates(merged, rest, limit);
      } else {
        BackfillTruncates(merged + [c], rest, limit);
        TakeNewSlugsHead(merged, ranked, limit - |merged|);
      }
    }
  }

  /** A city with a new slug heads the new slugs: the step of `BackfillTruncates` that appends it. */
  lemma TakeNewSlugsHead(merged: seq<City>, ranked: seq<City>, n: nat)
    requires n > 0 && |ranked| > 0 && !SlugTaken(merged, ranked[0].slug)
    ensures merged + [ranked[0]] + Take(NewSlugs(merged + [ranked[0]], ranked[1..]), n - 1)
            == merged + Take(NewSlugs(merged, ranked), n)
  {
    NewSlugsTake(merged, ranked);
    AppendTakeCons(merged, ranked[0], NewSlugs(merged + [ranked[0]], ranked[1..]), n);
  }

  /** Appending `x` and then `n - 1` of `s` is appending `n` of `[x] + s`. */
  lemma AppendTakeCons<T>(m: seq<T>, x: T, s: seq<T>, n: nat)
    requires n > 0
    ensures m + [x] + Take(s, n - 1) == m + Take([x] + s, n)
  {
    TakeCons(x, s, n);
    assert m + [x] + Take(s, n - 1) == m + ([x] + Take(s, n - 1));
  }

  /** One city of the ranking offered, then the rest. */
  lemma BackfillStep(merged: seq<City>, ranked: seq<City>, limit: nat)
    requires |ranked| > 0
    ensures Backfill(merged, ranked, limit) == Backfill(Step(merged, ranked[0], limit), ranked[1..], limit)
  {
  }

  /** Taking `n > 0` from a list headed by `x` keeps `x` and takes `n - 1` from the rest. */
  lemma TakeCons<T>(x: T, s: seq<T>, n: nat)
    requires n > 0
    ensures Take([x] + s, n) == [x] + Take(s, n - 1)
  {
    if n - 1 <= |s| {
      assert ([x] + s)[..n] == [x] + s[..n - 1];
    }
  }

  /** Topping up a list of catalogue cities from a reordering of the catalogue keeps to the catalogue. */
  lemma BackfillMembers(merged: seq<City>, ranked: seq<City>, limit: nat, cities: seq<City>)
    requires forall i :: 0 <= i < |merged| ==> merged[i] in cities
    requires multiset(ranked) == multiset(cities)
    ensures var r := Backfill(merged, ranked, limit);
            forall i :: 0 <= i < |r| ==> r[i] in cities
  {
    var r := Backfill(merged, ranked, limit);
    forall i | 0 <= i < |r|
      ensures r[i] in cities
    {
      if i < |merged| {
        assert r[i] == merged[i];
      } else {
        assert r[i] in multiset(ranked);
      }
    }
  }

  /** A city appended for a slug not yet taken differs in slug from every entry before it. */
  lemma AppendedFresh(merged: seq<City>, c: City, r: seq<City>)
    requires !SlugTaken(merged, c.slug) && IsPrefix(merged + [c], r)
    ensures forall i :: 0 <= i < |merged| ==> r[i].slug != r[|merged|].slug
  {
    assert r[|merged|] == c;
    forall i | 0 <= i < |merged|
      ensures r[i].slug != c.slug
    {
      assert r[i] == merged[i];
    }
  }

  /** An appended city never repeats a slug that is already in the list. */
  lemma {:induction false} BackfillFresh(merged: seq<City>, ranked: seq<City>, limit: nat)
    ensures var r := Backfill(merged, ranked, limit);
            forall i, j :: 0 <= i < j < |r| && |merged| <= j ==> r[i].slug != r[j].slug
    decreases |ranked|
  {
    if |ranked| > 0 {
      var next := Step(merged, ranked[0], limit);
      var r := Backfill(next, ranked[1..], limit);
      assert Backfill(merged, ranked, limit) == r;
      BackfillFresh(next, ranked[1..], limit);
      assert forall i, j :: 0 <= i < j < |Backfill(next, ranked[1..], limit)| && |next| <= j ==>
               Backfill(next, ranked[1..], limit)[i].slug != Backfill(next, ranked[1..], limit)[j].slug;
      if next == merged + [ranked[0]] {
        AppendedFresh(merged, ranked[0], r);
      }
    }
  }

  /** A list that grows from one step and stays shorter than `limit` holds the slug offered. */
  lemma StepKeepsSlug(merged: seq<City>, c: City, limit: nat, r: seq<City>)
    requires IsPrefix(Step(merged, c, limit), r) && |r| < limit
    ensures SlugTaken(r, c.slug)
  {
    var next := Step(merged, c, limit);
    if next == merged + [c] {
      assert r[|merged|] == c;
    } else {
      var i :| 0 <= i < |merged| && merged[i].slug == c.slug;
      assert r[i] == merged[i];
    }
  }

  /** A list left shorter than `limit` holds the slug of every city offered. */
  lemma {:induction false} BackfillCovers(merged: seq<City>, ranked: seq<City>, limit: nat)
    ensures var r := Backfill(merged, ranked, limit);
            |r| < limit ==> forall k :: 0 <= k < |ranked| ==> SlugTaken(r, ranked[k].slug)
    decreases |ranked|
  {
    if |ranked| > 0 {
      var c := ranked[0];
      var rest := ranked[1..];
      var next := Step(merged, c, limit);
      var r := Backfill(next, rest, limit);
      assert Backfill(merged, ranked, limit) == r;
      BackfillCovers(next, rest, limit);
      if |r| < limit {
        StepKeepsSlug(merged, c, limit, r);
        forall k | 0 <= k < |ranked|
          ensures SlugTaken(r, ranked[k].slug)
        {
          if k > 0 {
            assert ranked[k] == rest[k - 1];
            assert SlugTaken(Backfill(next, rest, limit), rest[k - 1].slug);
          }
        }
      }
    }
  }

  /** In a list of non-increasing key, the head's key bounds the key of everything after it. */
  lemma HeadBoundsRest<T>(s: seq<T>, key: T -> real, x: T)
    requires |s| > 0 && NonIncreasing(s, key) && x in s[1..]
    ensures key(s[0]) >= key(x)
  {
    var m :| 0 <= m < |s| - 1 && s[1..][m] == x;
    assert s[m + 1] == x;
  }

  /** Over an affinity-ranked list, the cities appended come in non-increasing affinity. */
  lemma {:induction false} BackfillOrdered(merged: seq<City>, ranked: seq<City>, limit: nat, key: City -> real)
    requires NonIncreasing(ranked, key)
    ensures var r := Backfill(merged, ranked, limit);
            forall i, j :: |merged| <= i < j < |r| ==> key(r[i]) >= key(r[j])
    decreases |ranked|
  {
    if |ranked| > 0 {
      var next := Step(merged, ranked[0], limit);
      var rest := ranked[1..];
      BackfillStep(merged, ranked, limit);
      assert NonIncreasing(rest, key);
      BackfillOrdered(next, rest, limit, key);
      if next == merged + [ranked[0]] {
        AppendedHeadOrdered(merged, ranked, key, Backfill(next, rest, limit));
      }
    }
  }

  /** A head appended ahead of an ordered tail drawn from the rest of the ranking keeps the order. */
  lemma AppendedHeadOrdered(merged: seq<City>, ranked: seq<City>, key: City -> real, r: seq<City>)
    requires |ranked| > 0 && NonIncreasing(ranked, key)
    requires IsPrefix(merged + [ranked[0]], r)
    requires forall j :: |merged| + 1 <= j < |r| ==> r[j] in ranked[1..]
    requires forall i, j :: |merged| + 1 <= i < j < |r| ==> key(r[i]) >= key(r[j])
    ensures forall i, j :: |merged| <= i < j < |r| ==> key(r[i]) >= key(r[j])
  {
    forall i, j | |merged| <= i < j < |r|
      ensures key(r[i]) >= key(r[j])
    {
      if i == |merged| {
        assert r[i] == ranked[0];
        HeadBoundsRest(ranked, key, r[j]);
      }
    }
  }

  /**
   `getRelatedCitiesForPost`: the cities the post mentions, in catalogue
   order; when fewer than `limit`, topped up from the catalogue ranked by
   tag affinity, skipping slugs already listed.
   */
  function GetRelatedCitiesForPost(post: BlogPost, cities: seq<City>, limit: nat): (r: seq<City>)
    ensures var direct := DirectMatches(post, cities);
            |direct| >= limit ==> r == direct[..limit]
    ensures var direct := DirectMatches(post, cities);
            |direct| < limit ==> IsPrefix(direct, r)
    ensures |r| <= limit
  {
    var direct := DirectMatches(post, cities);
    if |direct| >= limit then Take(direct, limit)
    else Take(Backfill(direct, FallbackByTags(post, cities), limit), limit)
  }

  /** Every city in the result comes from the catalogue. */
  lemma RelatedCitiesMembers(post: BlogPost, cities: seq<City>, limit: nat)
    ensures var r := GetRelatedCitiesForPost(post, cities, limit);
            forall i :: 0 <= i < |r| ==> r[i] in cities
  {
    var direct := DirectMatches(post, cities);
    FilterMembers(cities, Mentions(PostText(post)));
    var r := GetRelatedCitiesForPost(post, cities, limit);
    if |direct| >= limit {
      assert forall i :: 0 <= i < |r| ==> r[i] in direct;
    } else {
      RelatedCitiesUnfold(post, cities, limit);
      BackfillMembers(direct, FallbackByTags(post, cities), limit, cities);
    }
  }

  /** The result is the backfill of the direct matches over the affinity ranking, when they fall short. */
  lemma RelatedCitiesUnfold(post: BlogPost, cities: seq<City>, limit: nat)
    requires |DirectMatches(post, cities)| < limit
    ensures GetRelatedCitiesForPost(post, cities, limit)
         == Backfill(DirectMatches(post, cities), FallbackByTags(post, cities), limit)
  {
  }

  /**
   Which cities fill the list: with fewer than `limit` direct matches, the
   result is the direct matches followed by the first cities of the affinity
   ranking that bring a new slug, in ranking order, up to `limit`.
   */
  lemma RelatedCitiesFill(post: BlogPost, cities: seq<City>, limit: nat)
    ensures var direct := DirectMatches(post, cities);
            |direct| < limit ==>
              GetRelatedCitiesForPost(post, cities, limit)
              == direct + Take(NewSlugs(direct, FallbackByTags(post, cities)), limit - |direct|)
  {
    var direct := DirectMatches(post, cities);
    if |direct| < limit {
      RelatedCitiesUnfold(post, cities, limit);
      BackfillTruncates(direct, FallbackByTags(post, cities), limit);
    }
  }

  /**
   The cities added after the direct matches repeat no slug listed before
   them, and come in non-increasing tag affinity.
   */
  lemma RelatedCitiesBackfill(post: BlogPost, cities: seq<City>, limit: nat)
    ensures var r := GetRelatedCitiesForPost(post, cities, limit);
            var n := |DirectMatches(post, cities)|;
            && (forall i, j :: 0 <= i < j < |r| && n <= j ==> r[i].slug != r[j].slug)
            && (forall i, j :: n <= i < j < |r| ==> TagAffinity(post, r[i]) >= TagAffinity(post, r[j]))
  {
    var direct := DirectMatches(post, cities);
    if |direct| < limit {
      var ranked := FallbackByTags(post, cities);
      RelatedCitiesUnfold(post, cities, limit);
      BackfillFresh(direct, ranked, limit);
      BackfillOrdered(direct, ranked, limit, AffinityKey(post));
    }
  }

  /** A result shorter than `limit` holds the slug of every city in the catalogue. */
  lemma RelatedCitiesCover(post: BlogPost, cities: seq<City>, limit: nat)
    ensures var r := GetRelatedCitiesForPost(post, cities, limit);
            |r| < limit ==> forall k :: 0 <= k < |cities| ==> SlugTaken(r, cities[k].slug)
  {
    var direct := DirectMatches(post, cities);
    var r := GetRelatedCitiesForPost(post, cities, limit);
    if |direct| < limit && |r| < limit {
      var ranked := FallbackByTags(post, cities);
      RelatedCitiesUnfold(post, cities, limit);
      BackfillCovers(direct, ranked, limit);
      forall k | 0 <= k < |cities|
        ensures SlugTaken(r, cities[k].slug)
      {
        assert cities[k] in multiset(ranked);
        var m :| 0 <= m < |ranked| && ranked[m] == cities[k];
      }
    }
  }

  /** The related cities never repeat a slug when the catalogue does not. */
  lemma RelatedCitiesDistinct(post: BlogPost, cities: seq<City>, limit: nat)
    requires DistinctBy(cities, SlugOf)
    ensures DistinctBy(GetRelatedCitiesForPost(post, cities, limit), SlugOf)
  {
    var r := GetRelatedCitiesForPost(post, cities, limit);
    var direct := DirectMatches(post, cities);
    FilterShrinks(cities, Mentions(PostText(post)));
    DistinctByShrink(cities, direct, SlugOf);
    RelatedCitiesBackfill(post, cities, limit);
    forall i, j | 0 <= i < j < |r|
      ensures SlugOf(r[i]) != SlugOf(r[j])
    {
      if j < |direct| {
        assert r[i] == direct[i] && r[j] == direct[j];
      }
    }
  }

  /** With unique slugs the post gets `limit` cities, or the whole catalogue when it is smaller. */
  lemma RelatedCitiesLength(post: BlogPost, cities: seq<City>, limit: nat)
    requires DistinctBy(cities, SlugOf)
    ensures |GetRelatedCitiesForPost(post, cities, limit)| == Min(limit, |cities|)
  {
    var r := GetRelatedCitiesForPost(post, cities, limit);
    RelatedCitiesDistinct(post, cities, limit);
    RelatedCitiesCover(post, cities, limit);
    RelatedCitiesMembers(post, cities, limit);
    CountBySlugs(r, cities, limit);
  }

  /**
   A list of catalogue cities with distinct slugs, at most `limit` long and
   holding every catalogue slug when shorter, has `min(limit, |cities|)`
   entries.
   */
  lemma CountBySlugs(r: seq<City>, cities: seq<City>, limit: nat)
    requires DistinctBy(r, SlugOf) && DistinctBy(cities, SlugOf)
    requires |r| <= limit
    requires forall i :: 0 <= i < |r| ==> r[i] in cities
    requires |r| < limit ==> forall k :: 0 <= k < |cities| ==> SlugTaken(r, cities[k].slug)
    ensures |r| == Min(limit, |cities|)
  {
    DistinctByCard(r, SlugOf);
    DistinctByCard(cities, SlugOf);
    assert |Image(r, SlugOf)| == |r|;
    assert |Image(cities, SlugOf)| == |cities|;
    assert Image(r, SlugOf) <= Image(cities, SlugOf) by {
      forall s | s in Image(r, SlugOf)
        ensures s in Image(cities, SlugOf)
      {
        var i :| 0 <= i < |r| && SlugOf(r[i]) == s;
        assert r[i] in cities;
        var k :| 0 <= k < |cities| && cities[k] == r[i];
        assert SlugOf(cities[k]) == s;
      }
    }
    SubsetCard(Image(r, SlugOf), Image(cities, SlugOf));
    if |r| < limit {
      assert Image(cities, SlugOf) <= Image(r, SlugOf) by {
        forall s | s in Image(cities, SlugOf)
          ensures s in Image(r, SlugOf)
        {
          var k :| 0 <= k < |cities| && SlugOf(cities[k]) == s;
          assert SlugTaken(r, cities[k].slug);
          var i :| 0 <= i < |r| && r[i].slug == cities[k].slug;
          assert SlugOf(r[i]) == s;
        }
      }
      SubsetCard(Image(cities, SlugOf), Image(r, SlugOf));
      assert |cities| <= |r|;
    }
  }

  lemma SubsetCard(a: set<string>, b: set<string>)
    requires a <= b
    ensures |a| <= |b|
  {
    assert b == a + (b - a);
  }

  // ---------------------------------------------------------------------
  // Related posts of a city
  // ---------------------------------------------------------------------

  /** The title, excerpt, target keyword and paragraphs of a post, lowercased. */
  function CityPostText(post: BlogPost): string
  {
    Lower(post.title + " " + post.excerpt + " " + post.targetKeyword + " " + Join(post.content, " "))
  }

  /** A bonus of 2 when the post carries a tag of the group and the city passes the threshold. */
  function Bonus(tagged: bool, passes: bool): nat
  {
    if tagged && passes then 2 else 0
  }

  /** The four tag-gated bonuses: 2 per group the post carries and the city passes. */
  function TagBonuses(city: City, post: BlogPost): (b: nat)
    ensures b % 2 == 0 && b <= 8
    ensures b == 2 * Earned(city, post, AllGroups)
  {
    TaggedGroups(post);
    EarnedAll(city, post);
    Bonus("remote work" in post.tags || "digital nomad" in post.tags,
          city.scores.internet + city.scores.qualityOfLife > 16.0)
    + Bonus("budget" in post.tags || "cost of living" in post.tags, city.cost.single <= 1700.0)
    + Bonus("safety" in post.tags, city.scores.safety >= 7.5)
    + Bonus("healthcare" in post.tags, city.scores.healthcare >= 7.5)
  }

  /** 5 for naming the city and 3 for naming its country. */
  function MentionPoints(names: bool, namesCountry: bool): nat
  {
    (if names then 5 else 0) + (if namesCountry then 3 else 0)
  }

  /**
   The score of a post on a city page: 5 for naming the city, 3 for naming
   its country, and 2 per tag group whose threshold the city passes. The
   bonuses are even, so the score is odd exactly when the post names one of
   city and country but not both.
   */
  function CityPostScore(city: City, post: BlogPost): (s: nat)
    ensures s <= 16
    ensures var text := CityPostText(post);
            s % 2 == 1 <==> Contains(text, Lower(city.name)) != Contains(text, Lower(city.country))
    ensures var text := CityPostText(post);
            s == (if Contains(text, Lower(city.name)) then 5 else 0) + (if Contains(text, Lower(city.country)) then 3 else 0)
                 + 2 * Earned(city, post, AllGroups)
  {
    var text := CityPostText(post);
    MentionPoints(Contains(text, Lower(city.name)), Contains(text, Lower(city.country)))
    + TagBonuses(city, post)
  }

  /** Of two cities named alike by a post, the better and cheaper one scores it at least as high. */
  lemma CityPostScoreMonotone(a: City, b: City, post: BlogPost)
    requires Dominates(b, a)
    requires a.name == b.name && a.country == b.country
    ensures CityPostScore(a, post) <= CityPostScore(b, post)
  {
  }

  /** Naming the city in the text is worth exactly 5 points over not naming it. */
  lemma CityPostScoreNamesCity(a: City, b: City, post: BlogPost)
    requires a.country == b.country && a.scores == b.scores && a.cost == b.cost
    requires Contains(CityPostText(post), Lower(a.name)) && !Contains(CityPostText(post), Lower(b.name))
    ensures CityPostScore(a, post) == CityPostScore(b, post) + 5
  {
    EarnedSameScores(a, b, post, AllGroups);
  }

  /** Naming the country in the text is worth exactly 3 points over not naming it. */
  lemma CityPostScoreNamesCountry(a: City, b: City, post: BlogPost)
    requires a.name == b.name && a.scores == b.scores && a.cost == b.cost
    requires Contains(CityPostText(post), Lower(a.country)) && !Contains(CityPostText(post), Lower(b.country))
    ensures CityPostScore(a, post) == CityPostScore(b, post) + 3
  {
    EarnedSameScores(a, b, post, AllGroups);
  }

  /** The earned groups depend on the scores and the cost alone. */
  lemma {:induction false} EarnedSameScores(a: City, b: City, post: BlogPost, gs: seq<TagGroup>)
    requires a.scores == b.scores && a.cost == b.cost
    ensures Earned(a, post, gs) == Earned(b, post, gs)
    decreases |gs|
  {
    if gs != [] {
      EarnedSameScores(a, b, post, gs[1..]);
    }
  }

  /** The post with one more tag. */
  function WithTag(post: BlogPost, t: string): BlogPost
  {
    post.(tags := post.tags + [t])
  }

  /** A new tag puts the post in exactly the groups that list it. */
  lemma TaggedWithTag(post: BlogPost, t: string, g: TagGroup)
    ensures Tagged(WithTag(post, t), g) <==> Tagged(post, g) || t in GroupTags(g)
  {
    if t in GroupTags(g) {
      assert t in WithTag(post, t).tags;
    }
    if Tagged(post, g) {
      var u :| u in GroupTags(g) && u in post.tags;
      assert u in WithTag(post, t).tags;
    }
  }

  /** The tag groups are disjoint. */
  lemma GroupsDisjoint(t: string, g: TagGroup, h: TagGroup)
    requires t in GroupTags(g) && t in GroupTags(h)
    ensures g == h
  {
  }

  /** Tagging a post into a group it was not in adds that group and no other. */
  lemma TaggedAfterAdd(post: BlogPost, t: string, g: TagGroup, h: TagGroup)
    requires t in GroupTags(g)
    ensures Tagged(WithTag(post, t), h) <==> Tagged(post, h) || h == g
  {
    TaggedWithTag(post, t, h);
    if t in GroupTags(h) {
      GroupsDisjoint(t, g, h);
    }
  }

  /** The four groups after tagging a post into `g`. */
  lemma TaggedAfterAddAll(post: BlogPost, t: string, g: TagGroup)
    requires t in GroupTags(g)
    ensures forall h :: Tagged(WithTag(post, t), h) <==> Tagged(post, h) || h == g
  {
    forall h
      ensures Tagged(WithTag(post, t), h) <==> Tagged(post, h) || h == g
    {
      TaggedAfterAdd(post, t, g, h);
    }
  }

  /** Tagging a post into a group it was not in raises the fallback affinity by exactly that group's term. */
  lemma AddGroupTagAffinity(post: BlogPost, t: string, g: TagGroup, city: City)
    requires t in GroupTags(g) && !Tagged(post, g)
    ensures TagAffinity(WithTag(post, t), city) == TagAffinity(post, city) + AffinityTerm(city, g)
  {
    TaggedAfterAddAll(post, t, g);
  }

  /**
   Tagging a post into a group it was not in raises the bonuses by 2 when the
   city passes that group's threshold, and by nothing otherwise.
   */
  lemma AddGroupTagBonuses(post: BlogPost, t: string, g: TagGroup, city: City)
    requires t in GroupTags(g) && !Tagged(post, g)
    ensures TagBonuses(city, WithTag(post, t)) == TagBonuses(city, post) + (if Passes(city, g) then 2 else 0)
  {
    TaggedAfterAddAll(post, t, g);
    EarnedAll(city, post);
    EarnedAll(city, WithTag(post, t));
  }

  /** Tags are not part of the text, so the city-page score moves exactly as the bonuses do. */
  lemma AddGroupTagScore(post: BlogPost, t: string, g: TagGroup, city: City)
    requires t in GroupTags(g) && !Tagged(post, g)
    ensures CityPostScore(city, WithTag(post, t)) == CityPostScore(city, post) + (if Passes(city, g) then 2 else 0)
  {
    AddGroupTagBonuses(post, t, g, city);
    assert CityPostText(WithTag(post, t)) == CityPostText(post);
  }

  /**
   A city with internet 9 and quality of life 8, a single-person cost of
   1800, safety 7.5 and healthcare 7, under a post of all four groups,
   earns the remote-work and safety bonuses only.
   */
  lemma TagBonusesExample(city: City, post: BlogPost)
    requires city.scores.internet == 9.0 && city.scores.qualityOfLife == 8.0
    requires city.cost.single == 1800.0 && city.scores.safety == 7.5 && city.scores.healthcare == 7.0
    requires post.tags == ["remote work", "budget", "safety", "healthcare"]
    ensures TagBonuses(city, post) == 4
  {
  }

  /** The same city under the same post has fallback affinity 17 + 6.4 + 7 + 7.5. */
  lemma TagAffinityExample(city: City, post: BlogPost)
    requires city.scores.internet == 9.0 && city.scores.qualityOfLife == 8.0
    requires city.cost.single == 1800.0 && city.scores.safety == 7.5 && city.scores.healthcare == 7.0
    requires post.tags == ["remote work", "budget", "safety", "healthcare"]
    ensures TagAffinity(post, city) == 37.9
  {
  }

  /**
   A post that names the city but not its country, tagged safety and
   budget, scores a safe (8) but dear (2000) city 5 + 2.
   */
  lemma CityPostScoreExample(city: City, post: BlogPost)
    requires Contains(CityPostText(post), Lower(city.name)) && !Contains(CityPostText(post), Lower(city.country))
    requires city.scores.safety == 8.0 && city.cost.single == 2000.0
    requires post.tags == ["safety", "budget"]
    ensures CityPostScore(city, post) == 7
  {
  }

  function CityPostKey(city: City): BlogPost -> real
  {
    (p: BlogPost) => CityPostScore(city, p) as real
  }

  /**
   `getRelatedPostsForCity`: every post is scored, none is dropped; the
   first `limit` by score, ties in catalogue order.
   */
  function GetRelatedPostsForCity(city: City, posts: seq<BlogPost>, limit: nat): (r: seq<BlogPost>)
    ensures StableTop(r, posts, CityPostKey(city), limit)
    ensures |r| == Min(limit, |posts|)
    ensures forall i :: 0 <= i < |r| ==> r[i] in posts
    ensures forall i, j :: 0 <= i < j < |r| ==> CityPostScore(city, r[i]) >= CityPostScore(city, r[j])
  {
    var r := TopByKey(posts, CityPostKey(city), limit);
    StableTopMembers(r, posts, CityPostKey(city), limit);
    forall i, j | 0 <= i < j < |r|
      ensures CityPostScore(city, r[i]) >= CityPostScore(city, r[j])
    {
      assert CityPostKey(city)(r[i]) >= CityPostKey(city)(r[j]);
    }
    r
  }

  // ---------------------------------------------------------------------
  // Refresh schedule and FAQ
  // ---------------------------------------------------------------------

  /** `1000 * 60 * 60 * 24`. */
  const MsPerDay: int := 86400000

  datatype RefreshStatus = RefreshStatus(
    daysSinceUpdate: int,
    needsRefresh: bool,
    nextReviewAt: int,
    reviewEveryDays: int)

  /**
   `getBlogRefreshStatus`, with the clock reading `now` passed in; both
   instants are milliseconds since the epoch.
   */
  function GetBlogRefreshStatus(updatedAt: int, now: int, reviewEveryDays: int): (r: RefreshStatus)
    ensures MsPerDay * r.daysSinceUpdate <= now - updatedAt < MsPerDay * (r.daysSinceUpdate + 1)
    ensures r.needsRefresh <==> r.daysSinceUpdate >= reviewEveryDays
    ensures r.nextReviewAt == updatedAt + reviewEveryDays * MsPerDay
    ensures r.reviewEveryDays == reviewEveryDays
  {
    var days := (now - updatedAt) / MsPerDay;
    RefreshStatus(days, days >= reviewEveryDays, updatedAt + reviewEveryDays * MsPerDay, reviewEveryDays)
  }

  /** A guide is due for refresh exactly when the clock has reached its next review date. */
  lemma RefreshDueAtReviewDate(updatedAt: int, now: int, reviewEveryDays: int)
    ensures var r := GetBlogRefreshStatus(updatedAt, now, reviewEveryDays);
            r.needsRefresh <==> now >= r.nextReviewAt
  {
    var r := GetBlogRefreshStatus(updatedAt, now, reviewEveryDays);
    var d := r.daysSinceUpdate;
    if d >= reviewEveryDays {
      assert MsPerDay * d >= MsPerDay * reviewEveryDays;
    } else {
      assert MsPerDay * (d + 1) <= MsPerDay * reviewEveryDays;
    }
  }

  /** The next review date depends on the update date only, never on the clock. */
  lemma NextReviewIgnoresClock(updatedAt: int, now1: int, now2: int, reviewEveryDays: int)
    ensures GetBlogRefreshStatus(updatedAt, now1, reviewEveryDays).nextReviewAt
         == GetBlogRefreshStatus(updatedAt, now2, reviewEveryDays).nextReviewAt
  {
  }

  /** Updated 2024-01-01, read 2024-02-15, reviewed every 30 days: 45 days old, due since 2024-01-31. */
  lemma RefreshExample()
    ensures GetBlogRefreshStatus(1704067200000, 1707955200000, 30)
         == RefreshStatus(45, true, 1706659200000, 30)
  {
  }

  /** A FAQ entry; the answers are fixed prose and are not modelled. */
  datatype FaqEntry = FaqEntry(question: string)

  const KeywordQuestionStart: string := "How should I use this "
  const KeywordQuestionEnd: string := " guide?"

  /** `buildFaqForPost`: a keyword question, then two fixed questions. */
  function BuildFaqForPost(post: BlogPost): (r: seq<FaqEntry>)
    ensures |r| == 3
  {
    [ FaqEntry(KeywordQuestionStart + post.targetKeyword + KeywordQuestionEnd),
      FaqEntry("How often should this information be rechecked?"),
      FaqEntry("What is the biggest mistake people make while choosing cities?") ]
  }

  /** Reads the keyword back out of the first question. */
  function KeywordOfQuestion(q: string): (r: Option<string>)
    ensures r.Some? ==> KeywordQuestionStart + r.value + KeywordQuestionEnd == q
  {
    var a := |KeywordQuestionStart|;
    var b := |KeywordQuestionEnd|;
    if |q| >= a + b && q[..a] == KeywordQuestionStart && q[|q| - b..] == KeywordQuestionEnd then
      assert q == q[..a] + q[a..|q| - b] + q[|q| - b..];
      Some(q[a..|q| - b])
    else None
  }

  /** The first question embeds the post's target keyword, which can be read back. */
  lemma FaqKeywordRoundTrip(post: BlogPost)
    ensures KeywordOfQuestion(BuildFaqForPost(post)[0].question) == Some(post.targetKeyword)
  {
    var q := KeywordQuestionStart + post.targetKeyword + KeywordQuestionEnd;
    assert q[..|KeywordQuestionStart|] == KeywordQuestionStart;
    assert q[|q| - |KeywordQuestionEnd|..] == KeywordQuestionEnd;
    assert q[|KeywordQuestionStart|..|q| - |KeywordQuestionEnd|] == post.targetKeyword;
  }

  /** Posts with different keywords get different FAQs; the other two questions never vary. */
  lemma FaqDistinguishesKeywords(p1: BlogPost, p2: BlogPost)
    ensures BuildFaqForPost(p1) == BuildFaqForPost(p2) <==> p1.targetKeyword == p2.targetKeyword
    ensures BuildFaqForPost(p1)[1..] == BuildFaqForPost(p2)[1..]
  {
    if BuildFaqForPost(p1) == BuildFaqForPost(p2) {
      FaqKeywordRoundTrip(p1);
      FaqKeywordRoundTrip(p2);
    }
  }
}
