/** `ConfigManager.get_random_videos`: pick `count` distinct video files from
    a folder. The folder's directory listing is an input (an absent folder is
    created and so lists nothing), and `random.sample` is a nondeterministic
    choice constrained only by the postconditions. */
module Media {
  import opened Common

  /** Only names with one of these suffixes (case-sensitive) are videos. */
  predicate IsVideo(name: string)
  {
    EndsWith(name, ".mp4") || EndsWith(name, ".mov") || EndsWith(name, ".avi")
  }

  /** The list comprehension over the directory listing, in listing order. */
  function Eligible(listing: seq<string>): (r: seq<string>)
    ensures |r| <= |listing|
    ensures forall x :: x in r <==> x in listing && IsVideo(x)
    ensures Distinct(listing) ==> Distinct(r)
  {
    if listing == [] then []
    else
      var rest := Eligible(listing[1..]);
      assert forall x :: x in listing[1..] ==> x in listing;
      DistinctTail(listing);
      if IsVideo(listing[0]) then
        [listing[0]] + rest
      else rest
  }

  /** `os.path.join(folder, name)` for a plain file name from the listing. */
  function Join(folder: string, name: string): (r: string)
    ensures |folder| + |name| <= |r| <= |folder| + 1 + |name|
    ensures r[..|folder|] == folder && r[|r| - |name|..] == name
    ensures |r| == |folder| + 1 + |name| <==> folder != [] && folder[|folder| - 1] != '/'
    ensures |r| == |folder| + 1 + |name| ==> r[|folder|] == '/'
  {
    if folder == [] || folder[|folder| - 1] == '/' then folder + name else folder + "/" + name
  }

  lemma JoinInjective(folder: string, a: string, b: string)
    requires Join(folder, a) == Join(folder, b)
    ensures a == b
  {
    var p := if folder == [] || folder[|folder| - 1] == '/' then folder else folder + "/";
    assert Join(folder, a) == p + a && Join(folder, b) == p + b;
    assert a == (p + a)[|p|..];
    assert b == (p + b)[|p|..];
  }

  function Paths(folder: string, names: seq<string>): (r: seq<string>)
    ensures |r| == |names|
    ensures forall i :: 0 <= i < |names| ==> r[i] == Join(folder, names[i])
  {
    seq(|names|, i requires 0 <= i < |names| => Join(folder, names[i]))
  }

  /** Joining keeps distinct names distinct. */
  lemma PathsDistinct(folder: string, names: seq<string>)
    requires Distinct(names)
    ensures Distinct(Paths(folder, names))
  {
    var r := Paths(folder, names);
    forall i, j | 0 <= i < j < |r|
      ensures r[i] != r[j]
    {
      if r[i] == r[j] {
        JoinInjective(folder, names[i], names[j]);
      }
    }
  }

  function Min(a: int, b: int): int
  {
    if a <= b then a else b
  }

  /** Removing the entry at `i` from a sequence without repetition drops
      exactly that element. */
  lemma RemoveAt(rest: seq<string>, i: nat)
    requires i < |rest| && Distinct(rest)
    ensures var rest' := rest[..i] + rest[i + 1..];
            && |rest'| == |rest| - 1
            && Distinct(rest')
            && forall y :: y in rest' <==> y in rest && y != rest[i]
  {
  }

  /** `random.sample(pool, count)` for `0 <= count <= len(pool)`: each draw
      takes one of the entries not drawn yet. */
  method Sample(pool: seq<string>, count: nat) returns (chosen: seq<string>)
    requires Distinct(pool) && count <= |pool|
    ensures |chosen| == count
    ensures Distinct(chosen)
    ensures forall x :: x in chosen ==> x in pool
    ensures count == |pool| ==> forall x :: x in pool ==> x in chosen
  {
    chosen := [];
    var rest := pool;
    while |chosen| < count
      invariant |chosen| + |rest| == |pool|
      invariant |chosen| <= count
      invariant Distinct(chosen) && Distinct(rest)
      invariant forall x :: x in chosen ==> x in pool && x !in rest
      invariant forall x :: x in rest ==> x in pool
      invariant forall x :: x in pool ==> x in chosen || x in rest
    {
      var i :| 0 <= i < |rest|;
      var x := rest[i];
      RemoveAt(rest, i);
      DistinctAppend(chosen, x);
      chosen := chosen + [x];
      rest := rest[..i] + rest[i + 1..];
    }
  }

  /** Joining maps members of the names to members of the paths. */
  lemma PathsMembers(folder: string, names: seq<string>, sub: seq<string>)
    requires forall x :: x in sub ==> x in names
    ensures forall p :: p in Paths(folder, sub) ==> p in Paths(folder, names)
  {
    forall p | p in Paths(folder, sub)
      ensures p in Paths(folder, names)
    {
      var k :| 0 <= k < |sub| && Paths(folder, sub)[k] == p;
      assert sub[k] in names;
      var j :| 0 <= j < |names| && names[j] == sub[k];
      assert Paths(folder, names)[j] == p;
    }
  }

  /** `get_random_videos(folder, count)`. A negative count makes
      `random.sample` raise; a pool shorter than `count` is returned whole, in
      listing order; otherwise `count` distinct files are sampled. */
  method GetRandomVideos(folder: string, listing: seq<string>, count: int) returns (r: Outcome<seq<string>>)
    requires Distinct(listing)
    ensures count < 0 <==> r.Raised?
    ensures r.Ok? ==> |r.value| == Min(count, |Eligible(listing)|)
    ensures r.Ok? ==> Distinct(r.value)
    ensures r.Ok? ==> forall p :: p in r.value ==> p in Paths(folder, Eligible(listing))
    ensures r.Ok? && count >= |Eligible(listing)| ==>
              forall p :: p in Paths(folder, Eligible(listing)) ==> p in r.value
    ensures |Eligible(listing)| < count ==> r == Ok(Paths(folder, Eligible(listing)))
  {
    var pool := Eligible(listing);
    if |pool| < count {
      PathsDistinct(folder, pool);
      return Ok(Paths(folder, pool));
    }
    if count < 0 {
      return Raised;
    }
    var chosen := Sample(pool, count);
    PathsDistinct(folder, chosen);
    PathsMembers(folder, pool, chosen);
    if count == |pool| {
      PathsMembers(folder, chosen, pool);
    }
    r := Ok(Paths(folder, chosen));
  }
}
