/** The directory browser of src/media_dir.c: a search that stops at a media file, keeps its stack of directories,
    and goes on from there when it is called again. */
module MediaDir {

  const MAX_LEVEL: nat := 10

  /** An entry of a directory, in the order of `scandir`. `open` says that the directory can be read and holds no
      `.putv_unparse`; `media` that the type of the file is known. A link is what it leads to. */
  datatype Item = Item(name: string, entry: Entry)
  datatype Entry = Regular(media: bool) | Directory(items: seq<Item>, open: bool) | Other

  datatype Frame = Frame(path: string, level: nat, items: seq<Item>, index: nat)

  /** A call of the callback of the user. */
  datatype Report = Report(mediaid: int, path: string)

  predicate Hidden(name: string) {
    name != "" && name[0] == '.'
  }

  // ----- the listing -----

  /** The media files of one entry, in preorder. */
  function ItemFiles(path: string, level: nat, item: Item): seq<string>
    requires level <= MAX_LEVEL + 1
    decreases MAX_LEVEL + 2 - level, 0
  {
    if Hidden(item.name) then []
    else
      match item.entry
      case Regular(media) => if media then [path + "/" + item.name] else []
      case Directory(items, open) =>
        if level <= MAX_LEVEL && open then Files(path + "/" + item.name, level + 1, items, 0) else []
      case Other => []
  }

  /** The media files of a directory from the entry `i` on, in preorder. */
  function Files(path: string, level: nat, items: seq<Item>, i: nat): seq<string>
    requires level <= MAX_LEVEL + 1
    decreases MAX_LEVEL + 2 - level, |items| + 1 - i
  {
    if i >= |items| then [] else ItemFiles(path, level, items[i]) + Files(path, level, items, i + 1)
  }

  function FrameFiles(f: Frame, i: nat): seq<string>
    requires f.level <= MAX_LEVEL + 1
  {
    Files(f.path, f.level, f.items, i)
  }

  predicate Levels(stack: seq<Frame>) {
    forall i :: 0 <= i < |stack| ==> stack[i].level == i && i <= MAX_LEVEL + 1
  }

  /** What is left behind the entries that the frames from `level` on stand at. */
  function Behind(stack: seq<Frame>, level: nat): seq<string>
    requires Levels(stack)
    decreases |stack|
  {
    if |stack| <= level then []
    else
      var top := stack[|stack| - 1];
      FrameFiles(top, top.index + 1) + Behind(stack[..|stack| - 1], level)
  }

  /** What is left for a search in the frames from `level` on: the top frame stands at an entry not yet searched. */
  function Left(stack: seq<Frame>, level: nat): seq<string>
    requires Levels(stack) && |stack| > level
  {
    var top := stack[|stack| - 1];
    FrameFiles(top, top.index) + Behind(stack[..|stack| - 1], level)
  }

  lemma Associates(a: seq<string>, b: seq<string>, c: seq<string>)
    ensures a + (b + c) == (a + b) + c
  {
  }

  lemma BehindOpened(stack: seq<Frame>, level: nat)
    requires Levels(stack) && stack != []
    ensures var init, top := stack[..|stack| - 1], stack[|stack| - 1];
      && Levels(init) && top.level <= MAX_LEVEL + 1
      && Behind(stack, level) == if |stack| <= level then [] else FrameFiles(top, top.index + 1) + Behind(init, level)
  {
    hide Files, FrameFiles;
  }

  lemma {:induction false} BehindSplit(stack: seq<Frame>, level: nat)
    requires Levels(stack) && level < |stack|
    ensures stack[level].level <= MAX_LEVEL + 1
    ensures Behind(stack, level) == Behind(stack, level + 1) + FrameFiles(stack[level], stack[level].index + 1)
    decreases |stack|
  {
    hide Behind, FrameFiles;
    var init, top := stack[..|stack| - 1], stack[|stack| - 1];
    BehindOpened(stack, level);
    BehindOpened(stack, level + 1);
    if |stack| > level + 1 {
      BehindSplit(init, level);
      Associates(FrameFiles(top, top.index + 1), Behind(init, level + 1), FrameFiles(init[level], init[level].index + 1));
    } else {
      NoneBehind(init, level);
      assert FrameFiles(top, top.index + 1) + [] == FrameFiles(top, top.index + 1);
    }
  }

  lemma NoneBehind(stack: seq<Frame>, level: nat)
    requires Levels(stack) && |stack| <= level
    ensures Behind(stack, level) == []
  {
  }

  lemma LeftSplit(stack: seq<Frame>, level: nat)
    requires Levels(stack) && level + 1 < |stack|
    ensures Left(stack, level) == Left(stack, level + 1) + FrameFiles(stack[level], stack[level].index + 1)
  {
    hide Files, Behind;
    var init, top := stack[..|stack| - 1], stack[|stack| - 1];
    BehindSplit(init, level);
    Associates(FrameFiles(top, top.index), Behind(init, level + 1), FrameFiles(stack[level], stack[level].index + 1));
  }

  lemma LeftOne(stack: seq<Frame>, level: nat)
    requires Levels(stack) && |stack| == level + 1
    ensures Left(stack, level) == FrameFiles(stack[level], stack[level].index)
  {
    hide Files;
  }

  // ----- one search -----

  function Numbered(files: seq<string>, from: int): (r: seq<Report>)
    ensures |r| == |files|
  {
    seq(|files|, i requires 0 <= i < |files| => Report(from + i, files[i]))
  }

  /** The search for `id` went over all of `files` with the counter at `from`; the id -1 asks for all of them. */
  predicate Missed(files: seq<string>, id: int, from: int, before: seq<Report>, mediaid: int, reported: seq<Report>) {
    && mediaid == from + |files| && !(0 <= id && from <= id < mediaid)
    && reported == before + if id == -1 then Numbered(files, from) else []
  }

  /** The search stopped in `files` at the one with the number `id`; `left` begins with it. */
  predicate Hit(files: seq<string>, id: int, from: int, before: seq<Report>, mediaid: int, reported: seq<Report>,
                left: seq<string>)
  {
    && 0 <= id && from <= id < from + |files| && mediaid == id
    && reported == before + [Report(id, files[id - from])] && left == files[id - from..]
  }

  lemma MissedNone(id: int, from: int, before: seq<Report>)
    ensures Missed([], id, from, before, from, before)
  {
  }

  lemma OneFile(path: string, id: int, from: int, before: seq<Report>)
    ensures id == from >= 0 ==> Hit([path], id, from, before, from, before + [Report(from, path)], [path])
    ensures id != from || id < 0 ==> Missed([path], id, from, before, from + 1,
      before + if id == -1 then [Report(from, path)] else [])
  {
  }

  lemma MissedBoth(first: seq<string>, second: seq<string>, id: int, from: int, before: seq<Report>,
                   mediaid: int, reported: seq<Report>, mediaid': int, reported': seq<Report>)
    requires Missed(first, id, from, before, mediaid, reported)
    requires Missed(second, id, mediaid, reported, mediaid', reported')
    ensures Missed(first + second, id, from, before, mediaid', reported')
  {
    assert Numbered(first + second, from) == Numbered(first, from) + Numbered(second, mediaid);
  }

  lemma MissedThenHit(first: seq<string>, second: seq<string>, id: int, from: int, before: seq<Report>,
                      mediaid: int, reported: seq<Report>, mediaid': int, reported': seq<Report>, left: seq<string>)
    requires Missed(first, id, from, before, mediaid, reported)
    requires Hit(second, id, mediaid, reported, mediaid', reported', left)
    ensures Hit(first + second, id, from, before, mediaid', reported', left)
  {
  }

  lemma HitInFirst(first: seq<string>, second: seq<string>, id: int, from: int, before: seq<Report>,
                   mediaid: int, reported: seq<Report>, left: seq<string>)
    requires Hit(first, id, from, before, mediaid, reported, left)
    ensures Hit(first + second, id, from, before, mediaid, reported, left + second)
  {
  }

  /** Every frame stands at one of its entries. */
  predicate Standing(stack: seq<Frame>) {
    Levels(stack) && forall i :: 0 <= i < |stack| ==> stack[i].index < |stack[i].items|
  }

  lemma FilesFrom(f: Frame)
    requires f.level <= MAX_LEVEL + 1 && f.index < |f.items|
    ensures FrameFiles(f, f.index) == ItemFiles(f.path, f.level, f.items[f.index]) + FrameFiles(f, f.index + 1)
  {
  }

  lemma NoFiles(path: string, level: nat, item: Item)
    requires level <= MAX_LEVEL + 1
    ensures Hidden(item.name) || item.entry == Regular(false) || item.entry.Other? ==> ItemFiles(path, level, item) == []
    ensures item.entry.Directory? && (level > MAX_LEVEL || !item.entry.open || item.entry.items == []) ==>
      ItemFiles(path, level, item) == []
  {
  }

  lemma MediaFiles(path: string, level: nat, item: Item)
    requires level <= MAX_LEVEL + 1 && !Hidden(item.name) && item.entry == Regular(true)
    ensures ItemFiles(path, level, item) == [path + "/" + item.name]
  {
  }

  lemma DirectoryFiles(path: string, level: nat, item: Item)
    requires level <= MAX_LEVEL && !Hidden(item.name) && item.entry.Directory? && item.entry.open
    ensures ItemFiles(path, level, item) == Files(path + "/" + item.name, level + 1, item.entry.items, 0)
  {
  }

  lemma FilesEnd(path: string, level: nat, items: seq<Item>)
    requires level <= MAX_LEVEL + 1
    ensures Files(path, level, items, |items|) == []
  {
  }

  class Search {
    const root: string
    const tree: seq<Item>
    var stack: seq<Frame>
    var mediaid: int
    var reported: seq<Report>

    function Listing(): seq<string> {
      Files(root, 0, tree, 0)
    }

    constructor (root: string, tree: seq<Item>)
      ensures this.root == root && this.tree == tree && stack == [] && reported == []
    {
      this.root, this.tree, stack, mediaid, reported := root, tree, [], 0, [];
    }

    /** `_find_mediaid`. */
    method Callback(id: int, path: string) returns (ret: int)
      modifies this`reported
      ensures ret == if 0 <= id && id == mediaid then 0 else 1
      ensures reported == old(reported) + if id == -1 || (0 <= id && id == mediaid) then [Report(mediaid, path)] else []
    {
      ret := 1;
      if id >= 0 && id == mediaid {
        reported := reported + [Report(mediaid, path)];
        ret := 0;
      } else if id == -1 {
        reported := reported + [Report(mediaid, path)];
      }
    }

    /** The top frame goes to its next entry. */
    method Step()
      requires stack != []
      modifies this`stack
      ensures var top := old(stack)[|old(stack)| - 1];
        stack == old(stack)[..|old(stack)| - 1] + [top.(index := top.index + 1)]
    {
      var top := stack[|stack| - 1];
      stack := stack[..|stack| - 1] + [top.(index := top.index + 1)];
    }

    /** The entry that the top frame stands at; `last` is what the entry before it gave. */
    method Visit(level: nat, id: int, last: int) returns (ret: int, ghost left: seq<string>)
      requires Standing(stack) && |stack| == level + 1 && last != 0
      modifies this
      ensures Standing(stack) && |stack| > level && stack[..level + 1] == old(stack)
      ensures var f := old(stack)[level];
        var files := ItemFiles(f.path, level, f.items[f.index]);
        if ret == 0 then
          && Hit(files, id, old(mediaid), old(reported), mediaid, reported, left)
          && Left(stack, level) == left + FrameFiles(f, f.index + 1)
        else
          |stack| == level + 1 && Missed(files, id, old(mediaid), old(reported), mediaid, reported)
      decreases MAX_LEVEL + 2 - level, 0
    {
      hide Files, Behind, Hit, Missed, ItemFiles, FrameFiles, Left;
      ret, left := last, [];
      var f := stack[level];
      var item := f.items[f.index];
      MissedNone(id, mediaid, reported);
      NoFiles(f.path, level, item);
      if Hidden(item.name) {
        return;
      }
      match item.entry {
        case Directory(items, open) =>
          if level <= MAX_LEVEL && open && items != [] {
            DirectoryFiles(f.path, level, item);
            ret, left := Descend(level, id, f.path + "/" + item.name, items);
          }
        case Regular(media) =>
          ret := -1;
          if media {
            ret, left := VisitMedia(level, id);
          }
        case Other =>
      }
    }

    /** A media file: the callback decides whether the search stops. */
    method VisitMedia(level: nat, id: int) returns (ret: int, ghost left: seq<string>)
      requires Standing(stack) && |stack| == level + 1
      requires var item := stack[level].items[stack[level].index];
        !Hidden(item.name) && item.entry == Regular(true)
      modifies this`mediaid, this`reported
      ensures var f := stack[level];
        var files := ItemFiles(f.path, level, f.items[f.index]);
        if ret == 0 then
          && Hit(files, id, old(mediaid), old(reported), mediaid, reported, left)
          && Left(stack, level) == left + FrameFiles(f, f.index + 1)
        else
          Missed(files, id, old(mediaid), old(reported), mediaid, reported)
    {
      hide Files, Behind, Hit, Missed, FrameFiles, Left, ItemFiles, Hidden;
      var f := stack[level];
      var path := f.path + "/" + f.items[f.index].name;
      left := [path];
      MediaFiles(f.path, level, f.items[f.index]);
      OneFile(path, id, mediaid, reported);
      LeftOne(stack, level);
      FilesFrom(f);
      ghost var from, before := mediaid, reported;
      ret := Callback(id, path);
      if ret > 0 {
        mediaid := mediaid + 1;
        assert Missed([path], id, from, before, mediaid, reported);
      } else {
        assert Hit([path], id, from, before, mediaid, reported, [path]);
      }
    }

    /** A directory with entries is pushed and searched. */
    method Descend(level: nat, id: int, path: string, items: seq<Item>) returns (ret: int, ghost left: seq<string>)
      requires Standing(stack) && |stack| == level + 1 && level <= MAX_LEVEL && items != []
      modifies this
      ensures Standing(stack) && |stack| > level && stack[..level + 1] == old(stack)
      ensures var f, files := old(stack)[level], Files(path, level + 1, items, 0);
        if ret == 0 then
          && Hit(files, id, old(mediaid), old(reported), mediaid, reported, left)
          && Left(stack, level) == left + FrameFiles(f, f.index + 1)
        else
          |stack| == level + 1 && Missed(files, id, old(mediaid), old(reported), mediaid, reported)
      decreases MAX_LEVEL + 1 - level, 3
    {
      hide Files, Behind, Hit, Missed, Left;
      ghost var f := stack[level];
      left := [];
      stack := stack + [Frame(path, level + 1, items, 0)];
      LeftOne(stack, level + 1);
      ret := Find(level + 1, id);
      if ret == 0 {
        left := Left(stack, level + 1);
        LeftSplit(stack, level);
        assert stack[level] == stack[..level + 1][level] == f;
      }
    }

    /** The loop of `_find` over the entries of the top frame, which leaves the stack when all are searched. */
    method Scan(level: nat, id: int, last: int) returns (ret: int)
      requires Levels(stack) && |stack| == level + 1 && Standing(stack[..level]) && last != 0
      requires stack[level].index <= |stack[level].items|
      modifies this
      ensures Standing(stack) && level <= |stack| && stack[..level] == old(stack)[..level]
      ensures var files := FrameFiles(old(stack)[level], old(stack)[level].index);
        if ret == 0 then
          |stack| > level && Hit(files, id, old(mediaid), old(reported), mediaid, reported, Left(stack, level))
        else
          |stack| == level && Missed(files, id, old(mediaid), old(reported), mediaid, reported)
      decreases MAX_LEVEL + 2 - level, 1
    {
      hide Files, Behind, Hit, Missed, Left, ItemFiles;
      ret := last;
      ghost var from, before := mediaid, reported;
      ghost var files, done: seq<string> := FrameFiles(stack[level], stack[level].index), [];
      MissedNone(id, from, before);
      while ret != 0 && stack[level].index < |stack[level].items|
        invariant ret != 0 && Levels(stack) && |stack| == level + 1 && stack[..level] == old(stack)[..level]
        invariant stack[level].index <= |stack[level].items|
        invariant Missed(done, id, from, before, mediaid, reported)
        invariant files == done + FrameFiles(stack[level], stack[level].index)
        decreases |stack[level].items| - stack[level].index
      {
        var f := stack[level];
        ghost var here, rest := ItemFiles(f.path, level, f.items[f.index]), FrameFiles(f, f.index + 1);
        ghost var mediaid0, reported0 := mediaid, reported;
        FilesFrom(f);
        ghost var left;
        ret, left := Visit(level, id, ret);
        if ret == 0 {
          HitInFirst(here, rest, id, mediaid0, reported0, mediaid, reported, left);
          MissedThenHit(done, here + rest, id, from, before, mediaid0, reported0, mediaid, reported, left + rest);
          return;
        }
        MissedBoth(done, here, id, from, before, mediaid0, reported0, mediaid, reported);
        assert files == done + here + rest;
        done := done + here;
        Step();
      }
      FilesEnd(stack[level].path, level, stack[level].items);
      assert files == done;
      stack := stack[..level];
    }

    /** `_find`; 0 when it stopped at the file with the number `id`. */
    method Find(level: nat, id: int) returns (ret: int)
      requires Standing(stack) && (level < |stack| || (level == 0 && stack == []))
      modifies this
      ensures Standing(stack) && level <= |stack| && stack[..level] == old(stack)[..level]
      ensures var files := if old(stack) == [] then Listing() else Left(old(stack), level);
        var from := if old(stack) == [] then 0 else old(mediaid);
        if ret == 0 then
          |stack| > level && Hit(files, id, from, old(reported), mediaid, reported, Left(stack, level))
        else
          |stack| == level && Missed(files, id, from, old(reported), mediaid, reported)
      decreases MAX_LEVEL + 2 - level, 2
    {
      hide Files, Behind, Hit, Missed, Left, ItemFiles;
      ret := -2;
      if stack == [] {
        stack := [Frame(root, 0, tree, 0)];
        mediaid := 0;
        ret := Scan(level, id, ret);
      } else if stack[|stack| - 1].level > level {
        ghost var f, from, before, here := stack[level], mediaid, reported, Left(stack, level + 1);
        LeftSplit(stack, level);
        ret := Find(level + 1, id);
        ghost var mediaid0, reported0 := mediaid, reported;
        if ret == 0 {
          LeftSplit(stack, level);
          HitInFirst(here, FrameFiles(f, f.index + 1), id, from, before, mediaid, reported, Left(stack, level + 1));
        } else {
          Step();
          ret := Scan(level, id, ret);
          if ret == 0 {
            MissedThenHit(here, FrameFiles(f, f.index + 1), id, from, before, mediaid0, reported0,
              mediaid, reported, Left(stack, level));
          } else {
            MissedBoth(here, FrameFiles(f, f.index + 1), id, from, before, mediaid0, reported0, mediaid, reported);
          }
        }
      } else {
        LeftOne(stack, level);
        ret := Scan(level, id, ret);
      }
    }

    /** The search stands at the file with the number `n`. */
    ghost predicate StandsAt(n: nat)
      reads this
    {
      Standing(stack) && stack != [] && n < |Listing()| && Left(stack, 0) == Listing()[n..]
    }

    /** The search for `id` as `media_find` and `media_next` start it: the caller gives the number `from` of the file
        that it takes the search to stand at. A search that stands at the file `n` reports the file n + (id - from). */
    method Seek(from: int, id: nat, ghost n: nat) returns (ret: int)
      requires stack == [] || StandsAt(n)
      modifies this
      ensures var start, number := if old(stack) == [] then 0 else n, if old(stack) == [] then id else n + id - from;
        if start <= number < |Listing()| then
          ret == 0 && StandsAt(number) && mediaid == id && reported == old(reported) + [Report(id, Listing()[number])]
        else
          ret != 0 && stack == [] && reported == old(reported)
    {
      hide Files, Left;
      mediaid := from;
      ret := Find(0, id);
    }

    /** Asking for the next file until there is none plays the listing, each file once and under its number. */
    method PlayAll()
      requires stack == []
      modifies this
      ensures stack == [] && reported == old(reported) + Numbered(Listing(), 0)
    {
      hide Files, Left, Numbered;
      ghost var files, before := Listing(), reported;
      NumberedStart(files, before);
      var ret := Seek(0, 0, 0);
      ghost var n: nat := 0;
      while ret == 0
        invariant ret == 0 ==> StandsAt(n) && mediaid == n && reported == before + Numbered(files[..n + 1], 0)
        invariant ret != 0 ==> stack == [] && reported == before + Numbered(files, 0)
        decreases ret == 0, |files| - n
      {
        NumberedMore(files, before, n);
        ret := Seek(mediaid, mediaid + 1, n);
        n := n + 1;
      }
    }
  }

  lemma NumberedStart(files: seq<string>, before: seq<Report>)
    ensures before + Numbered([], 0) == before
    ensures files != [] ==> before + Numbered(files[..1], 0) == before + [Report(0, files[0])]
  {
  }

  lemma NumberedMore(files: seq<string>, before: seq<Report>, n: nat)
    requires n < |files|
    ensures if n + 1 < |files| then
        before + Numbered(files[..n + 2], 0) == before + Numbered(files[..n + 1], 0) + [Report(n + 1, files[n + 1])]
      else files[..n + 1] == files
  {
    if n + 1 < |files| {
      assert Numbered(files[..n + 2], 0) == Numbered(files[..n + 1], 0) + [Report(n + 1, files[n + 1])];
    }
  }

  /** `media_find` with its own stack, and `media_list` with the id -1. */
  method MediaFind(root: string, tree: seq<Item>, id: int) returns (found: bool, reported: seq<Report>)
    ensures var listing := Files(root, 0, tree, 0);
      && found == (0 <= id < |listing|)
      && reported == if id == -1 then Numbered(listing, 0) else if found then [Report(id, listing[id])] else []
  {
    hide Files, Left;
    var search := new Search(root, tree);
    var ret := search.Find(0, id);
    return ret == 0, search.reported;
  }
}
