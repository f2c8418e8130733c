/** Which files the listing of src/media_dir.c holds, and in which order: those that a trail of entries leads to. */
module MediaListing {
  import opened MediaDir

  /** The trail gives, from the root on, the entry to take in each directory. It leads through readable directories without
      a mark against parsing and to a media file; no name on it begins with a dot. */
  predicate LeadsTo(path: string, items: seq<Item>, trail: seq<nat>, file: string)
    decreases |trail|
  {
    && trail != [] && trail[0] < |items|
    && var item := items[trail[0]];
       var name := path + "/" + item.name;
       && (item.name == "" || item.name[0] != '.')
       && if |trail| == 1 then item.entry == Regular(true) && file == name
          else item.entry.Directory? && item.entry.open && LeadsTo(name, item.entry.items, trail[1..], file)
  }

  ghost predicate Arrives(path: string, items: seq<Item>, trail: seq<nat>) {
    exists file :: LeadsTo(path, items, trail, file)
  }

  /** Entries in the order of the directory, and what is in a directory in its place. */
  predicate Precedes(a: seq<nat>, b: seq<nat>) {
    a != [] && b != [] && (a[0] < b[0] || (a[0] == b[0] && Precedes(a[1..], b[1..])))
  }

  /** The trails lead to these files one by one, each trail of at most `depth` entries, each preceding the next ones. */
  ghost predicate Ordered(path: string, items: seq<Item>, trails: seq<seq<nat>>, files: seq<string>, depth: int) {
    && |trails| == |files|
    && (forall k :: 0 <= k < |files| ==> |trails[k]| <= depth && LeadsTo(path, items, trails[k], files[k]))
    && forall j, k :: 0 <= j < k < |files| ==> Precedes(trails[j], trails[k])
  }

  /** None is missing that begins with the entry `i` or a later one. */
  ghost predicate Full(path: string, items: seq<Item>, trails: seq<seq<nat>>, i: nat, depth: int) {
    forall trail, file :: LeadsTo(path, items, trail, file) && trail != [] && trail[0] >= i && |trail| <= depth ==> trail in trails
  }

  function Prefixed(i: nat, trails: seq<seq<nat>>): (r: seq<seq<nat>>)
    ensures |r| == |trails|
  {
    seq(|trails|, k requires 0 <= k < |trails| => [i] + trails[k])
  }

  ghost predicate From(trails: seq<seq<nat>>, i: nat) {
    forall k :: 0 <= k < |trails| ==> trails[k] != [] && trails[k][0] >= i
  }

  ghost predicate Within(trails: seq<seq<nat>>, i: nat) {
    forall k :: 0 <= k < |trails| ==> trails[k] != [] && trails[k][0] == i
  }

  /** The trails through one entry. */
  ghost predicate Entered(path: string, items: seq<Item>, trails: seq<seq<nat>>, i: nat, depth: int) {
    forall trail, file :: LeadsTo(path, items, trail, file) && trail != [] && trail[0] == i && |trail| <= depth ==> trail in trails
  }

  lemma {:induction false} ItemTrails(path: string, level: nat, items: seq<Item>, i: nat) returns (trails: seq<seq<nat>>)
    requires level <= MAX_LEVEL + 1 && i < |items|
    ensures Ordered(path, items, trails, ItemFiles(path, level, items[i]), MAX_LEVEL + 2 - level)
    ensures Within(trails, i) && Entered(path, items, trails, i, MAX_LEVEL + 2 - level)
    decreases MAX_LEVEL + 2 - level, 0
  {
    hide Files;
    var item := items[i];
    trails := [];
    NoFiles(path, level, item);
    if !Hidden(item.name) {
      match item.entry
      case Regular(media) =>
        if media {
          MediaFiles(path, level, item);
          trails := [[i]];
          OneTrail(path, items, i, MAX_LEVEL + 2 - level);
        }
      case Directory(inner, open) =>
        if level <= MAX_LEVEL && open {
          DirectoryFiles(path, level, item);
          var inside := FilesTrails(path + "/" + item.name, level + 1, inner, 0);
          trails := Prefixed(i, inside);
          Deeper(path, items, i, inside, ItemFiles(path, level, item), MAX_LEVEL + 1 - level);
        }
      case Other =>
    }
  }

  lemma OneTrail(path: string, items: seq<Item>, i: nat, depth: int)
    requires i < |items| && !Hidden(items[i].name) && items[i].entry == Regular(true) && depth >= 1
    ensures Ordered(path, items, [[i]], [path + "/" + items[i].name], depth)
    ensures Within([[i]], i) && Entered(path, items, [[i]], i, depth)
  {
    forall trail, file | LeadsTo(path, items, trail, file) && trail != [] && trail[0] == i
      ensures trail == [i]
    {
      assert |trail| == 1;
    }
  }

  lemma Deeper(path: string, items: seq<Item>, i: nat, inside: seq<seq<nat>>, files: seq<string>, depth: int)
    requires i < |items| && !Hidden(items[i].name) && items[i].entry.Directory? && items[i].entry.open
    requires var inner := items[i].entry.items;
      Ordered(path + "/" + items[i].name, inner, inside, files, depth)
      && Full(path + "/" + items[i].name, inner, inside, 0, depth)
    ensures var trails := Prefixed(i, inside);
      Ordered(path, items, trails, files, depth + 1) && Within(trails, i) && Entered(path, items, trails, i, depth + 1)
  {
    hide LeadsTo, Precedes;
    var trails, inner, name := Prefixed(i, inside), items[i].entry.items, path + "/" + items[i].name;
    forall k | 0 <= k < |files| ensures LeadsTo(path, items, trails[k], files[k]) {
      LeadsInto(path, items, i, inside[k], files[k]);
    }
    forall j, k | 0 <= j < k < |files| ensures Precedes(trails[j], trails[k]) {
      BothInto(i, inside[j], inside[k]);
    }
    forall trail, file | LeadsTo(path, items, trail, file) && trail != [] && trail[0] == i && |trail| <= depth + 1
      ensures trail in trails
    {
      LeadsOn(path, items, trail, file);
      var k :| 0 <= k < |inside| && inside[k] == trail[1..];
      assert trails[k] == [i] + inside[k] == trail;
    }
  }

  lemma LeadsInto(path: string, items: seq<Item>, i: nat, trail: seq<nat>, file: string)
    requires i < |items| && !Hidden(items[i].name) && items[i].entry.Directory? && items[i].entry.open
    requires LeadsTo(path + "/" + items[i].name, items[i].entry.items, trail, file)
    ensures LeadsTo(path, items, [i] + trail, file)
  {
    assert ([i] + trail)[1..] == trail;
  }

  lemma BothInto(i: nat, a: seq<nat>, b: seq<nat>)
    requires Precedes(a, b)
    ensures Precedes([i] + a, [i] + b)
  {
    assert ([i] + a)[1..] == a && ([i] + b)[1..] == b;
  }

  lemma LeadsOn(path: string, items: seq<Item>, trail: seq<nat>, file: string)
    requires LeadsTo(path, items, trail, file) && items[trail[0]].entry.Directory?
    ensures |trail| > 1
    ensures LeadsTo(path + "/" + items[trail[0]].name, items[trail[0]].entry.items, trail[1..], file)
  {
  }

  lemma {:induction false} FilesTrails(path: string, level: nat, items: seq<Item>, i: nat) returns (trails: seq<seq<nat>>)
    requires level <= MAX_LEVEL + 1
    ensures Ordered(path, items, trails, Files(path, level, items, i), MAX_LEVEL + 2 - level)
    ensures From(trails, i) && Full(path, items, trails, i, MAX_LEVEL + 2 - level)
    decreases MAX_LEVEL + 2 - level, |items| + 1 - i
  {
    hide ItemFiles, LeadsTo, Precedes;
    if i >= |items| {
      NoTrails(path, items, i);
      return [];
    }
    var first := ItemTrails(path, level, items, i);
    var rest := FilesTrails(path, level, items, i + 1);
    trails := first + rest;
    Joined(path, items, i, first, ItemFiles(path, level, items[i]), rest, Files(path, level, items, i + 1),
           MAX_LEVEL + 2 - level);
  }

  lemma NoTrails(path: string, items: seq<Item>, i: nat)
    requires i >= |items|
    ensures forall trail, file :: LeadsTo(path, items, trail, file) ==> trail[0] < i
  {
  }

  lemma Joined(path: string, items: seq<Item>, i: nat, first: seq<seq<nat>>, head: seq<string>, rest: seq<seq<nat>>,
               tail: seq<string>, depth: int)
    requires Ordered(path, items, first, head, depth) && Within(first, i) && Entered(path, items, first, i, depth)
    requires Ordered(path, items, rest, tail, depth) && From(rest, i + 1) && Full(path, items, rest, i + 1, depth)
    ensures Ordered(path, items, first + rest, head + tail, depth) && From(first + rest, i)
    ensures Full(path, items, first + rest, i, depth)
  {
    hide LeadsTo;
    var trails, files := first + rest, head + tail;
    forall j, k | 0 <= j < k < |files| ensures Precedes(trails[j], trails[k]) {
      if k < |first| {
        assert trails[j] == first[j] && trails[k] == first[k];
      } else if j >= |first| {
        assert trails[j] == rest[j - |first|] && trails[k] == rest[k - |first|];
      } else {
        assert trails[j] == first[j] && trails[k] == rest[k - |first|];
      }
    }
  }

  /** The listing of a tree, without naming how it is computed: there is one file for each trail of at most 12 entries that
      leads to one, and the files stand in the order of their trails. */
  lemma ListingExactly(path: string, items: seq<Item>) returns (trails: seq<seq<nat>>)
    ensures Ordered(path, items, trails, Files(path, 0, items, 0), 12)
    ensures forall trail :: trail in trails <==> |trail| <= 12 && Arrives(path, items, trail)
    ensures forall j, k :: 0 <= j < k < |trails| ==> trails[j] != trails[k]
  {
    hide Files, LeadsTo;
    trails := FilesTrails(path, 0, items, 0);
    var files := Files(path, 0, items, 0);
    forall trail | trail in trails ensures |trail| <= 12 && Arrives(path, items, trail) {
      var k :| 0 <= k < |trails| && trails[k] == trail;
      assert LeadsTo(path, items, trails[k], files[k]);
    }
    forall trail | |trail| <= 12 && Arrives(path, items, trail) ensures trail in trails {
      var file :| LeadsTo(path, items, trail, file);
      Nonempty(path, items, trail, file);
    }
    forall j, k | 0 <= j < k < |trails| ensures trails[j] != trails[k] {
      PrecedesOther(trails[j], trails[k]);
    }
  }

  lemma Nonempty(path: string, items: seq<Item>, trail: seq<nat>, file: string)
    requires LeadsTo(path, items, trail, file)
    ensures trail != [] && trail[0] >= 0
  {
  }

  lemma {:induction false} PrecedesOther(a: seq<nat>, b: seq<nat>)
    requires Precedes(a, b)
    ensures a != b
  {
    if a[0] == b[0] {
      PrecedesOther(a[1..], b[1..]);
    }
  }
}
