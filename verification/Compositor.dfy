/**
 Composition of a scanline: which objects are fetched within the line's work budget, which of them
 owns each pixel, and which two layers a pixel is mixed from.
 */
module Compositor {
  import opened Prelude

  const WIDTH: nat := 240
  const OBJ: nat := 4

  // ---------------------------------------------------------------- object admission

  /** An OAM entry as the line sees it; `onLine` is false for disabled, unreadable or absent ones. */
  datatype Sprite = Sprite(onLine: bool, x: int, width: nat, affine: bool, window: bool, semi: bool, priority: nat)

  /** An admitted object and the end of the prefix of it that is fetched. */
  datatype Entry = Entry(index: nat, end: nat)

  function Budget(hblankIntervalFree: bool): nat {
    if hblankIntervalFree then 954 else 1210
  }

  /** Columns left of the screen that are not fetched; ordinary objects are fetched in pairs. */
  function LeftPrefix(s: Sprite): (p: nat)
    ensures p <= s.width
  {
    var offscreen := if s.x < 0 then Min(-s.x, s.width) else 0;
    if s.affine then offscreen else offscreen - offscreen % 2
  }

  /** Of an object only columns on or right of the screen's left edge are fetched, the ordinary ones with
      the rest of their pair; a column costs one, or two and ten once for an affine object. */
  lemma FetchedColumns(s: Sprite, column: nat)
    requires column < s.width && s.width % 2 == 0
    ensures column >= LeftPrefix(s) <==> s.x + column >= 0 || (!s.affine && column % 2 == 0 && s.x + column + 1 >= 0)
    ensures s.affine ==> Work(s, column) == 10 + 2 * column
    ensures !s.affine ==> Work(s, column) == column
  {
  }

  predicate Fetchable(s: Sprite) {
    s.onLine && LeftPrefix(s) < s.width
  }

  /** The work of fetching `columns` columns. */
  function Work(s: Sprite, columns: nat): nat {
    if s.affine then 10 + 2 * columns else columns
  }

  /** How many columns of the object fit. */
  function AdmittedColumns(s: Sprite, remaining: nat): (n: nat)
    ensures n <= s.width - LeftPrefix(s) && (n > 0 ==> Work(s, n) <= remaining)
    ensures n == s.width - LeftPrefix(s) || Work(s, n + 1) > remaining
  {
    var columns := s.width - LeftPrefix(s);
    if Work(s, columns) <= remaining then columns
    else if !s.affine then remaining
    else if remaining > 10 then (remaining - 10) / 2
    else 0
  }

  function LeftOver(s: Sprite, remaining: nat): nat {
    var work := Work(s, s.width - LeftPrefix(s));
    if work >= remaining then 0 else remaining - work
  }

  /** The objects admitted from OAM entry `i` on. */
  function Admission(sprites: seq<Sprite>, i: nat, remaining: nat): seq<Entry>
    requires i <= |sprites|
    decreases |sprites| - i
  {
    if i == |sprites| then []
    else if !sprites[i].onLine then Admission(sprites, i + 1, remaining)
    else if remaining == 0 then []
    else if !Fetchable(sprites[i]) then Admission(sprites, i + 1, remaining)
    else
      var columns := AdmittedColumns(sprites[i], remaining);
      if columns == 0 then []
      else [Entry(i, LeftPrefix(sprites[i]) + columns)] + Admission(sprites, i + 1, LeftOver(sprites[i], remaining))
  }

  predicate ValidEntry(sprites: seq<Sprite>, e: Entry) {
    e.index < |sprites| && Fetchable(sprites[e.index])
    && LeftPrefix(sprites[e.index]) < e.end <= sprites[e.index].width
  }

  predicate Increasing(entries: seq<Entry>) {
    forall j, k :: 0 <= j < k < |entries| ==> entries[j].index < entries[k].index
  }

  function TotalWork(sprites: seq<Sprite>, entries: seq<Entry>): nat
    requires forall e :: e in entries ==> ValidEntry(sprites, e)
    decreases |entries|
  {
    if entries == [] then 0
    else
      assert ValidEntry(sprites, entries[0]);
      var s := sprites[entries[0].index];
      Work(s, entries[0].end - LeftPrefix(s)) + TotalWork(sprites, entries[1..])
  }

  ghost predicate AllValid(sprites: seq<Sprite>, i: nat, entries: seq<Entry>) {
    forall e :: e in entries ==> ValidEntry(sprites, e) && e.index >= i
  }

  predicate OnlyLastCut(sprites: seq<Sprite>, i: nat, entries: seq<Entry>)
    requires AllValid(sprites, i, entries)
  {
    forall k :: 0 <= k < |entries| - 1 ==> ValidEntry(sprites, entries[k]) && entries[k].end == sprites[entries[k].index].width
  }

  ghost predicate Admits(entries: seq<Entry>, j: nat) {
    exists e :: e in entries && e.index == j
  }

  /** Every fetchable object before an admitted one is admitted too. */
  ghost predicate SkipsNone(sprites: seq<Sprite>, i: nat, entries: seq<Entry>) {
    forall j: nat, e :: i <= j < |sprites| && Fetchable(sprites[j]) && e in entries && j < e.index ==> Admits(entries, j)
  }

  /** Admitted work never exceeds the budget; objects are admitted in OAM order, skipping none that
      could be fetched; and only the last may be cut short. */
  lemma {:induction false} AdmissionWithinBudget(sprites: seq<Sprite>, i: nat, remaining: nat)
    requires i <= |sprites|
    ensures var entries := Admission(sprites, i, remaining);
            && AllValid(sprites, i, entries) && TotalWork(sprites, entries) <= remaining
            && Increasing(entries) && OnlyLastCut(sprites, i, entries) && SkipsNone(sprites, i, entries)
    decreases |sprites| - i
  {
    hide LeftPrefix, Work;
    if i < |sprites| {
      var s := sprites[i];
      if !s.onLine || (remaining != 0 && !Fetchable(s)) {
        AdmissionWithinBudget(sprites, i + 1, remaining);
      } else if remaining != 0 {
        var columns := AdmittedColumns(s, remaining);
        if columns != 0 {
          AdmissionWithinBudget(sprites, i + 1, LeftOver(s, remaining));
          var rest := Admission(sprites, i + 1, LeftOver(s, remaining));
          AdmitOne(sprites, i, remaining, rest);
          AdmitCounts(sprites, i, remaining, rest);
          hide Admission;
        }
      }
    }
  }

  lemma AdmitOne(sprites: seq<Sprite>, i: nat, remaining: nat, rest: seq<Entry>)
    requires i < |sprites| && Fetchable(sprites[i]) && AdmittedColumns(sprites[i], remaining) > 0
    requires AllValid(sprites, i + 1, rest) && Increasing(rest) && SkipsNone(sprites, i + 1, rest)
    ensures var entries := [Entry(i, LeftPrefix(sprites[i]) + AdmittedColumns(sprites[i], remaining))] + rest;
            AllValid(sprites, i, entries) && Increasing(entries) && SkipsNone(sprites, i, entries)
  {
    hide LeftPrefix, Work;
    var first := Entry(i, LeftPrefix(sprites[i]) + AdmittedColumns(sprites[i], remaining));
    var entries := [first] + rest;
    assert ValidEntry(sprites, first) && entries[0] == first && first in entries;
    forall e | e in entries
      ensures ValidEntry(sprites, e) && e.index >= i
    {
      assert e == first || e in rest;
    }
    hide ValidEntry, Fetchable, AdmittedColumns;
    forall j: nat, e | i <= j < |sprites| && Fetchable(sprites[j]) && e in entries && j < e.index
      ensures Admits(entries, j)
    {
      if j > i {
        assert e in rest;
        assert Admits(rest, j);
        var f :| f in rest && f.index == j;
        assert f in entries;
      }
    }
  }

  lemma AdmitCounts(sprites: seq<Sprite>, i: nat, remaining: nat, rest: seq<Entry>)
    requires i < |sprites| && Fetchable(sprites[i]) && AdmittedColumns(sprites[i], remaining) > 0
    requires AllValid(sprites, i + 1, rest) && OnlyLastCut(sprites, i + 1, rest)
    requires rest == Admission(sprites, i + 1, LeftOver(sprites[i], remaining))
    requires TotalWork(sprites, rest) <= LeftOver(sprites[i], remaining)
    requires var entries := [Entry(i, LeftPrefix(sprites[i]) + AdmittedColumns(sprites[i], remaining))] + rest;
             AllValid(sprites, i, entries)
    ensures var entries := [Entry(i, LeftPrefix(sprites[i]) + AdmittedColumns(sprites[i], remaining))] + rest;
            TotalWork(sprites, entries) <= remaining && OnlyLastCut(sprites, i, entries)
  {
    hide LeftPrefix, Fetchable;
    var s := sprites[i];
    var columns := AdmittedColumns(s, remaining);
    var entries := [Entry(i, LeftPrefix(s) + columns)] + rest;
    assert entries[1..] == rest;
    if LeftOver(s, remaining) == 0 {
      ExhaustedAdmitsNone(sprites, i + 1);
    } else {
      assert columns == s.width - LeftPrefix(s);
    }
    hide Admission, AdmittedColumns;
    forall k | 0 <= k < |entries| - 1
      ensures ValidEntry(sprites, entries[k]) && entries[k].end == sprites[entries[k].index].width
    {
      assert entries[k] in entries;
      if k > 0 {
        assert entries[k] == rest[k - 1];
      }
    }
  }

  lemma {:induction false} ExhaustedAdmitsNone(sprites: seq<Sprite>, i: nat)
    requires i <= |sprites|
    ensures Admission(sprites, i, 0) == []
    decreases |sprites| - i
  {
    if i < |sprites| && !sprites[i].onLine {
      ExhaustedAdmitsNone(sprites, i + 1);
    }
  }

  predicate LastIsCut(sprites: seq<Sprite>, entries: seq<Entry>) {
    entries != [] && var e := entries[|entries| - 1]; e.index < |sprites| && e.end < sprites[e.index].width
  }

  /** Object `m` is left out, and its first column would not fit beside the admitted work. */
  ghost predicate NoRoomFor(sprites: seq<Sprite>, entries: seq<Entry>, remaining: nat, m: nat)
    requires AllValid(sprites, 0, entries) && m < |sprites|
  {
    Fetchable(sprites[m]) && !Admits(entries, m) && TotalWork(sprites, entries) + Work(sprites[m], 1) > remaining
  }

  /** An object is cut only if one more column of it would exceed the budget. */
  ghost predicate CutToFit(sprites: seq<Sprite>, entries: seq<Entry>, remaining: nat)
    requires AllValid(sprites, 0, entries)
  {
    LastIsCut(sprites, entries) ==>
      TotalWork(sprites, entries) + (if sprites[entries[|entries| - 1].index].affine then 2 else 1) > remaining
  }

  /** Fetching ended before object `j`: after a cut, or at an object with no room for a column. */
  ghost predicate EndedBefore(sprites: seq<Sprite>, i: nat, entries: seq<Entry>, remaining: nat, j: nat)
    requires AllValid(sprites, 0, entries) && j < |sprites|
  {
    LastIsCut(sprites, entries) || exists m: nat :: i <= m <= j && NoRoomFor(sprites, entries, remaining, m)
  }

  /** Nothing that fits is refused: an object is cut only if one more column of it would exceed the
      budget, and one is left out only after a cut or after an object with no room for a column. */
  lemma {:induction false} AdmissionIsMaximal(sprites: seq<Sprite>, i: nat, remaining: nat)
    requires i <= |sprites|
    ensures var entries := Admission(sprites, i, remaining);
            && AllValid(sprites, 0, entries) && CutToFit(sprites, entries, remaining)
            && forall j: nat :: i <= j < |sprites| && Fetchable(sprites[j]) && !Admits(entries, j) ==>
                 EndedBefore(sprites, i, entries, remaining, j)
    decreases |sprites| - i
  {
    AdmissionWithinBudget(sprites, i, remaining);
    hide *;
    if i == |sprites| || AdmitsNoneAt(sprites[i], remaining) {
      NothingAdmitted(sprites, i, remaining);
    } else if !Fetchable(sprites[i]) {
      SkipsOne(sprites, i, remaining);
      AdmissionIsMaximal(sprites, i + 1, remaining);
      EndedLater(sprites, i, Admission(sprites, i, remaining), remaining);
    } else {
      TakesOne(sprites, i, remaining);
      AdmissionIsMaximal(sprites, i + 1, LeftOver(sprites[i], remaining));
      AdmissionWithinBudget(sprites, i + 1, LeftOver(sprites[i], remaining));
      if AdmittedColumns(sprites[i], remaining) < sprites[i].width - LeftPrefix(sprites[i]) {
        CutAlone(sprites, i, remaining);
      } else {
        WholeFirst(sprites, i, remaining, Admission(sprites, i + 1, LeftOver(sprites[i], remaining)));
      }
    }
  }

  /** Fetching ends at this object. */
  predicate AdmitsNoneAt(s: Sprite, remaining: nat) {
    s.onLine && (remaining == 0 || (Fetchable(s) && AdmittedColumns(s, remaining) == 0))
  }

  lemma SkipsOne(sprites: seq<Sprite>, i: nat, remaining: nat)
    requires i < |sprites| && !AdmitsNoneAt(sprites[i], remaining) && !Fetchable(sprites[i])
    ensures Admission(sprites, i, remaining) == Admission(sprites, i + 1, remaining)
  {
  }

  lemma TakesOne(sprites: seq<Sprite>, i: nat, remaining: nat)
    requires i < |sprites| && !AdmitsNoneAt(sprites[i], remaining) && Fetchable(sprites[i])
    ensures var s := sprites[i];
            && 0 < AdmittedColumns(s, remaining)
            && Work(s, AdmittedColumns(s, remaining)) <= remaining
            && Admission(sprites, i, remaining)
               == [Entry(i, LeftPrefix(s) + AdmittedColumns(s, remaining))] + Admission(sprites, i + 1, LeftOver(s, remaining))
            && (AdmittedColumns(s, remaining) < s.width - LeftPrefix(s) ==>
                  Admission(sprites, i + 1, LeftOver(s, remaining)) == [])
  {
    hide Work;
    var s := sprites[i];
    if AdmittedColumns(s, remaining) < s.width - LeftPrefix(s) {
      Exhausts(s, remaining);
      ExhaustedAdmitsNone(sprites, i + 1);
    }
  }

  lemma Exhausts(s: Sprite, remaining: nat)
    requires Fetchable(s) && 0 < AdmittedColumns(s, remaining) < s.width - LeftPrefix(s)
    ensures LeftOver(s, remaining) == 0
  {
  }

  lemma EndedLater(sprites: seq<Sprite>, i: nat, entries: seq<Entry>, remaining: nat)
    requires AllValid(sprites, 0, entries)
    ensures forall j: nat :: i < j < |sprites| && EndedBefore(sprites, i + 1, entries, remaining, j) ==>
              EndedBefore(sprites, i, entries, remaining, j)
  {
    hide NoRoomFor, LastIsCut, AllValid;
  }

  lemma NothingAdmitted(sprites: seq<Sprite>, i: nat, remaining: nat)
    requires i <= |sprites| && (i < |sprites| ==> AdmitsNoneAt(sprites[i], remaining))
    ensures var entries := Admission(sprites, i, remaining);
            && AllValid(sprites, 0, entries) && CutToFit(sprites, entries, remaining)
            && forall j: nat :: i <= j < |sprites| && Fetchable(sprites[j]) && !Admits(entries, j) ==>
                 EndedBefore(sprites, i, entries, remaining, j)
  {
    hide LeftPrefix;
    assert Admission(sprites, i, remaining) == [];
    forall j: nat | i <= j < |sprites| && Fetchable(sprites[j])
      ensures EndedBefore(sprites, i, [], remaining, j)
    {
      assert NoRoomFor(sprites, [], remaining, if remaining == 0 then j else i);
    }
  }

  lemma CutAlone(sprites: seq<Sprite>, i: nat, remaining: nat)
    requires i < |sprites| && Fetchable(sprites[i])
    requires 0 < AdmittedColumns(sprites[i], remaining) < sprites[i].width - LeftPrefix(sprites[i])
    ensures var entries := [Entry(i, LeftPrefix(sprites[i]) + AdmittedColumns(sprites[i], remaining))];
            && AllValid(sprites, 0, entries) && CutToFit(sprites, entries, remaining)
            && forall j: nat :: i <= j < |sprites| ==> EndedBefore(sprites, i, entries, remaining, j)
  {
    hide LeftPrefix, AdmittedColumns;
  }

  lemma WholeFirst(sprites: seq<Sprite>, i: nat, remaining: nat, rest: seq<Entry>)
    requires i < |sprites| && Fetchable(sprites[i]) && LeftPrefix(sprites[i]) < sprites[i].width
    requires var s := sprites[i]; Work(s, s.width - LeftPrefix(s)) <= remaining
    requires AllValid(sprites, i + 1, rest) && CutToFit(sprites, rest, LeftOver(sprites[i], remaining))
    requires forall j: nat :: i < j < |sprites| && Fetchable(sprites[j]) && !Admits(rest, j) ==>
               EndedBefore(sprites, i + 1, rest, LeftOver(sprites[i], remaining), j)
    ensures var entries := [Entry(i, sprites[i].width)] + rest;
            && AllValid(sprites, 0, entries) && CutToFit(sprites, entries, remaining)
            && forall j: nat :: i <= j < |sprites| && Fetchable(sprites[j]) && !Admits(entries, j) ==>
                 EndedBefore(sprites, i, entries, remaining, j)
  {
    hide LeftPrefix, Fetchable, Work;
    var s := sprites[i];
    var first := Entry(i, s.width);
    var entries := [first] + rest;
    assert entries[1..] == rest && entries[0] == first && first in entries;
    assert AllValid(sprites, 0, entries);
    assert rest != [] ==> entries[|entries| - 1] == rest[|rest| - 1];
    assert TotalWork(sprites, entries) - remaining == TotalWork(sprites, rest) - LeftOver(s, remaining);
    hide AllValid, LeftOver, TotalWork;
    forall j: nat | i <= j < |sprites| && Fetchable(sprites[j]) && !Admits(entries, j)
      ensures EndedBefore(sprites, i, entries, remaining, j)
    {
      AdmitsBeyond(first, rest, j);
      if !LastIsCut(sprites, rest) {
        var m: nat :| i < m <= j && NoRoomFor(sprites, rest, LeftOver(s, remaining), m);
        AdmitsBeyond(first, rest, m);
        assert NoRoomFor(sprites, entries, remaining, m);
      }
    }
  }

  lemma AdmitsBeyond(first: Entry, rest: seq<Entry>, m: nat)
    ensures Admits([first] + rest, m) <==> first.index == m || Admits(rest, m)
  {
    if first.index == m {
      assert first in [first] + rest;
    }
    if Admits(rest, m) {
      var e :| e in rest && e.index == m;
      assert e in [first] + rest;
    }
  }

  /** The admission loop of render_scanline. */
  method AdmitSprites(sprites: seq<Sprite>, hblankIntervalFree: bool) returns (entries: seq<Entry>)
    ensures entries == Admission(sprites, 0, if hblankIntervalFree then 954 else 1210)
  {
    hide LeftPrefix, AdmittedColumns, LeftOver;
    entries := [];
    var remaining := Budget(hblankIntervalFree);
    ghost var whole := Admission(sprites, 0, remaining);
    var i := 0;
    while i < |sprites|
      invariant 0 <= i <= |sprites|
      invariant whole == entries + Admission(sprites, i, remaining)
    {
      var sprite := sprites[i];
      if sprite.onLine {
        if remaining == 0 {
          break;
        }
        var leftPrefix := LeftPrefix(sprite);
        if leftPrefix < sprite.width {
          var columns := AdmittedColumns(sprite, remaining);
          if columns == 0 {
            break;
          }
          assert whole == entries + ([Entry(i, leftPrefix + columns)] + Admission(sprites, i + 1, LeftOver(sprite, remaining)));
          entries := entries + [Entry(i, leftPrefix + columns)];
          remaining := LeftOver(sprite, remaining);
        }
      }
      i := i + 1;
    }
  }

  // ---------------------------------------------------------------- the object row

  datatype Candidate = Candidate(color: u16, layer: nat, priority: nat)

  /** What fetching a column of an object gives; None is transparent or unreadable. */
  type Texels = (nat, nat) -> Option<u16>

  predicate Covers(s: Sprite, e: Entry, x: nat) {
    x < WIDTH && s.x <= x < s.x + e.end
  }

  /** Entry `e` puts an opaque texel of the given kind at column `x`. */
  predicate Opaque(sprites: seq<Sprite>, e: Entry, texels: Texels, window: bool, x: nat)
    requires e.index < |sprites|
  {
    var s := sprites[e.index];
    s.window == window && Covers(s, e, x) && texels(e.index, x).Some?
  }

  predicate InRange(sprites: seq<Sprite>, entries: seq<Entry>) {
    forall k :: 0 <= k < |entries| ==> entries[k].index < |sprites|
  }

  /** The first entry with an opaque texel at `x`. */
  function FirstOpaque(sprites: seq<Sprite>, entries: seq<Entry>, texels: Texels, window: bool, x: nat): Option<Entry>
    requires InRange(sprites, entries)
    decreases |entries|
  {
    if entries == [] then None
    else
      var n := |entries| - 1;
      var earlier := FirstOpaque(sprites, entries[..n], texels, window, x);
      if earlier.Some? then earlier
      else if Opaque(sprites, entries[n], texels, window, x) then Some(entries[n])
      else None
  }

  /** The owner of a column is the lowest-numbered admitted object with an opaque texel there. */
  lemma {:induction false} LowestNumberedWins(sprites: seq<Sprite>, entries: seq<Entry>, texels: Texels, window: bool,
                                              x: nat, e: Entry)
    requires InRange(sprites, entries) && Increasing(entries)
    ensures FirstOpaque(sprites, entries, texels, window, x) == Some(e)
       <==> && e in entries && Opaque(sprites, e, texels, window, x)
            && forall f :: f in entries && f.index < e.index ==> !Opaque(sprites, f, texels, window, x)
    decreases |entries|
  {
    hide Opaque;
    if entries != [] {
      var n := |entries| - 1;
      var shorter, last := entries[..n], entries[n];
      LowestNumberedWins(sprites, shorter, texels, window, x, e);
      assert forall f :: f in entries <==> f in shorter || f == last;
      assert forall f :: f in shorter ==> f.index < last.index;
      var earlier := FirstOpaque(sprites, shorter, texels, window, x);
      if earlier.Some? {
        LowestNumberedWins(sprites, shorter, texels, window, x, earlier.value);
      } else if Opaque(sprites, last, texels, window, x) {
        NoneOpaque(sprites, shorter, texels, window, x);
      }
    }
  }

  lemma {:induction false} NoneOpaque(sprites: seq<Sprite>, entries: seq<Entry>, texels: Texels, window: bool, x: nat)
    requires InRange(sprites, entries) && FirstOpaque(sprites, entries, texels, window, x).None?
    ensures forall f :: f in entries ==> !Opaque(sprites, f, texels, window, x)
    decreases |entries|
  {
    hide Opaque;
    if entries != [] {
      NoneOpaque(sprites, entries[..|entries| - 1], texels, window, x);
    }
  }

  /** What the row buffers hold at a column. */
  function ObjectPixel(sprites: seq<Sprite>, entries: seq<Entry>, texels: Texels, x: nat): Option<Candidate>
    requires InRange(sprites, entries)
  {
    match FirstOpaque(sprites, entries, texels, false, x)
    case None => None
    case Some(e) =>
      if e.index < |sprites| && texels(e.index, x).Some?
      then Some(Candidate(texels(e.index, x).value, OBJ, sprites[e.index].priority)) else None
  }

  predicate SemiPixel(sprites: seq<Sprite>, entries: seq<Entry>, texels: Texels, x: nat)
    requires InRange(sprites, entries)
  {
    var e := FirstOpaque(sprites, entries, texels, false, x);
    e.Some? && e.value.index < |sprites| && sprites[e.value.index].semi
  }

  /** How entry `k` changes a column: only an empty one, and only where the entry is opaque. */
  lemma NextColumn(sprites: seq<Sprite>, entries: seq<Entry>, k: nat, texels: Texels, x: nat)
    requires InRange(sprites, entries) && k < |entries|
    ensures var e, before, after := entries[k], entries[..k], entries[..k + 1];
            var s := sprites[e.index];
            && ObjectPixel(sprites, after, texels, x)
               == (if ObjectPixel(sprites, before, texels, x).Some? then ObjectPixel(sprites, before, texels, x)
                   else if Opaque(sprites, e, texels, false, x) then Some(Candidate(texels(e.index, x).value, OBJ, s.priority))
                   else None)
            && SemiPixel(sprites, after, texels, x)
               == (if ObjectPixel(sprites, before, texels, x).Some? then SemiPixel(sprites, before, texels, x)
                   else Opaque(sprites, e, texels, false, x) && s.semi)
            && (ObjectPixel(sprites, before, texels, x).None? ==> !SemiPixel(sprites, before, texels, x))
            && FirstOpaque(sprites, after, texels, true, x).Some?
               == (FirstOpaque(sprites, before, texels, true, x).Some? || Opaque(sprites, e, texels, true, x))
  {
    assert entries[..k + 1][..k] == entries[..k];
    OwnerIsOpaque(sprites, entries[..k], texels, x);
  }

  lemma {:induction false} OwnerIsOpaque(sprites: seq<Sprite>, entries: seq<Entry>, texels: Texels, x: nat)
    requires InRange(sprites, entries)
    ensures ObjectPixel(sprites, entries, texels, x).Some? <==> FirstOpaque(sprites, entries, texels, false, x).Some?
    decreases |entries|
  {
    if entries != [] {
      OwnerIsOpaque(sprites, entries[..|entries| - 1], texels, x);
    }
  }

  /** The three row buffers at a column once the first `k` entries are drawn. */
  ghost predicate RowAt(sprites: seq<Sprite>, entries: seq<Entry>, texels: Texels, windowEnabled: bool, k: nat, x: nat,
                        pixel: Option<Candidate>, semi: bool, window: bool)
    requires InRange(sprites, entries) && k <= |entries|
  {
    && pixel == ObjectPixel(sprites, entries[..k], texels, x)
    && semi == SemiPixel(sprites, entries[..k], texels, x)
    && window == (windowEnabled && FirstOpaque(sprites, entries[..k], texels, true, x).Some?)
  }

  /** Drawing one entry at a column: an owned or uncovered column stays as it is. */
  lemma DrawnColumn(sprites: seq<Sprite>, entries: seq<Entry>, texels: Texels, windowEnabled: bool, k: nat, x: nat,
                    pixel: Option<Candidate>, semi: bool, window: bool)
    requires InRange(sprites, entries) && k < |entries|
    requires RowAt(sprites, entries, texels, windowEnabled, k, x, pixel, semi, window)
    ensures var e := entries[k];
            var s := sprites[e.index];
            && (!Covers(s, e, x) || texels(e.index, x).None? || (s.window && !windowEnabled)
                  || (if s.window then window else pixel.Some?) ==>
                  RowAt(sprites, entries, texels, windowEnabled, k + 1, x, pixel, semi, window))
            && (Covers(s, e, x) && texels(e.index, x).Some? && s.window && windowEnabled ==>
                  RowAt(sprites, entries, texels, windowEnabled, k + 1, x, pixel, semi, true))
            && (Covers(s, e, x) && texels(e.index, x).Some? && !s.window && pixel.None? ==>
                  RowAt(sprites, entries, texels, windowEnabled, k + 1, x,
                        Some(Candidate(texels(e.index, x).value, OBJ, s.priority)), s.semi, window))
  {
    NextColumn(sprites, entries, k, texels, x);
    hide ObjectPixel, SemiPixel, FirstOpaque, Covers;
  }

  /** One object's pass over its columns. */
  method DrawObject(sprites: seq<Sprite>, entries: seq<Entry>, k: nat, texels: Texels, windowEnabled: bool,
                    row: array<Option<Candidate>>, semi: array<bool>, window: array<bool>)
    requires InRange(sprites, entries) && k < |entries|
    requires row.Length == WIDTH && semi.Length == WIDTH && window.Length == WIDTH && semi != window
    requires forall x: nat :: x < WIDTH ==>
               RowAt(sprites, entries, texels, windowEnabled, k, x, row[x], semi[x], window[x])
    modifies row, semi, window
    ensures forall x: nat :: x < WIDTH ==>
              RowAt(sprites, entries, texels, windowEnabled, k + 1, x, row[x], semi[x], window[x])
  {
    hide RowAt;
    var e := entries[k];
    var sprite := sprites[e.index];
    forall x: nat | x < WIDTH && (!Covers(sprite, e, x) || (sprite.window && !windowEnabled))
      ensures RowAt(sprites, entries, texels, windowEnabled, k + 1, x, row[x], semi[x], window[x])
    {
      DrawnColumn(sprites, entries, texels, windowEnabled, k, x, row[x], semi[x], window[x]);
    }
    if sprite.window && !windowEnabled {
      return;
    }
    var start: nat := Max(0, sprite.x);
    var end: int := Min(WIDTH, sprite.x + e.end);
    var x := start;
    while x < end
      invariant start <= x
      invariant forall c: nat :: c < WIDTH ==>
                  RowAt(sprites, entries, texels, windowEnabled, if Covers(sprite, e, c) && x <= c then k else k + 1, c,
                        row[c], semi[c], window[c])
    {
      DrawnColumn(sprites, entries, texels, windowEnabled, k, x, row[x], semi[x], window[x]);
      var taken := if sprite.window then window[x] else row[x].Some?;
      if !taken {
        var texel := texels(e.index, x);
        if texel.Some? {
          if sprite.window {
            window[x] := true;
          } else {
            row[x] := Some(Candidate(texel.value, OBJ, sprite.priority));
            semi[x] := sprite.semi;
          }
        }
      }
      x := x + 1;
    }
  }

  /** The object-row loops of render_scanline. */
  method ResolveObjects(sprites: seq<Sprite>, entries: seq<Entry>, texels: Texels, windowEnabled: bool)
    returns (row: array<Option<Candidate>>, semi: array<bool>, window: array<bool>)
    requires InRange(sprites, entries)
    ensures row.Length == WIDTH && semi.Length == WIDTH && window.Length == WIDTH
    ensures forall x: nat :: x < WIDTH ==>
              RowAt(sprites, entries, texels, windowEnabled, |entries|, x, row[x], semi[x], window[x])
  {
    row := new Option<Candidate>[WIDTH](_ => None);
    semi := new bool[WIDTH](_ => false);
    window := new bool[WIDTH](_ => false);
    forall x: nat | x < WIDTH
      ensures RowAt(sprites, entries, texels, windowEnabled, 0, x, row[x], semi[x], window[x])
    {
      assert entries[..0] == [];
    }
    hide RowAt;
    for k := 0 to |entries|
      invariant forall x: nat :: x < WIDTH ==>
                  RowAt(sprites, entries, texels, windowEnabled, k, x, row[x], semi[x], window[x])
    {
      DrawObject(sprites, entries, k, texels, windowEnabled, row, semi, window);
    }
  }

  // ---------------------------------------------------------------- layer mixing

  /** At equal priority objects come before BG0 to BG3, and the backdrop last. */
  function LayerOrder(layer: nat): nat {
    if layer == OBJ then 0 else layer + 1
  }

  predicate Precedes(a: Candidate, b: Candidate) {
    if a.priority != b.priority then a.priority < b.priority else LayerOrder(a.layer) < LayerOrder(b.layer)
  }

  /** Precedence is a strict order that only relates candidates of the same layer and priority to
      neither side. */
  lemma PrecedesIsStrictOrder(a: Candidate, b: Candidate, c: Candidate)
    ensures !Precedes(a, a)
    ensures Precedes(a, b) && Precedes(b, c) ==> Precedes(a, c)
    ensures a.layer != b.layer ==> Precedes(a, b) || Precedes(b, a)
  {
  }

  /** A lower priority number always wins; at equal priority OBJ (4) precedes BG0 to BG3, which
      precede one another in that order, and the backdrop (5) comes last. */
  lemma PrecedenceTable(a: Candidate, b: Candidate)
    ensures a.priority < b.priority ==> Precedes(a, b) && !Precedes(b, a)
    ensures a.priority == b.priority && a.layer == 4 && (b.layer < 4 || b.layer == 5) ==>
              Precedes(a, b) && !Precedes(b, a)
    ensures a.priority == b.priority && a.layer < b.layer && (b.layer < 4 || (b.layer == 5 && a.layer != 4)) ==>
              Precedes(a, b) && !Precedes(b, a)
  {
  }

  datatype Pair = Pair(best: Candidate, second: Candidate)

  /** One `consider` step. */
  function Considered(p: Pair, c: Candidate): Pair {
    if Precedes(c, p.best) then Pair(c, p.best)
    else if Precedes(c, p.second) then Pair(p.best, c)
    else p
  }

  function Fold(backdrop: Candidate, layers: seq<Candidate>): Pair
    decreases |layers|
  {
    if layers == [] then Pair(backdrop, backdrop)
    else Considered(Fold(backdrop, layers[..|layers| - 1]), layers[|layers| - 1])
  }

  /** Candidates of one pixel: one per layer, all in front of the backdrop. */
  predicate PixelLayers(backdrop: Candidate, layers: seq<Candidate>) {
    && (forall i :: 0 <= i < |layers| ==> Precedes(layers[i], backdrop))
    && forall i, j :: 0 <= i < j < |layers| ==> layers[i].layer != layers[j].layer
  }

  /** The least candidate of a pixel, and the least of the others. */
  ghost predicate TwoLeast(backdrop: Candidate, layers: seq<Candidate>, p: Pair) {
    && (if layers == [] then p.best == backdrop else p.best in layers)
    && (forall c :: c in layers && c != p.best ==> Precedes(p.best, c))
    && (if |layers| <= 1 then p.second == backdrop else p.second in layers && p.second != p.best)
    && (forall c :: c in layers && c != p.best && c != p.second ==> Precedes(p.second, c))
  }

  /** Considering one more candidate keeps the two least. */
  lemma ConsiderKeeps(backdrop: Candidate, layers: seq<Candidate>, p: Pair, c: Candidate)
    requires TwoLeast(backdrop, layers, p) && c !in layers && Precedes(c, backdrop)
    requires forall d :: d in layers ==> (Precedes(c, d) <==> !Precedes(d, c)) && Precedes(d, backdrop)
    ensures TwoLeast(backdrop, layers + [c], Considered(p, c))
  {
    var q := Considered(p, c);
    assert forall d :: d in layers + [c] <==> d in layers || d == c;
    forall d | d in layers && d != p.best
      ensures Precedes(c, p.best) ==> Precedes(c, d)
    {
      PrecedesIsStrictOrder(c, p.best, d);
    }
    forall d | d in layers && d != p.best && d != p.second
      ensures Precedes(c, p.second) ==> Precedes(c, d)
    {
      PrecedesIsStrictOrder(c, p.second, d);
    }
    hide Precedes;
  }

  /** The fold computes the two least candidates of the pixel. */
  lemma {:induction false} FoldIsTwoLeast(backdrop: Candidate, layers: seq<Candidate>)
    requires PixelLayers(backdrop, layers)
    ensures TwoLeast(backdrop, layers, Fold(backdrop, layers))
    decreases |layers|
  {
    if layers != [] {
      var n := |layers| - 1;
      var shorter, c := layers[..n], layers[n];
      FoldIsTwoLeast(backdrop, shorter);
      forall d | d in shorter
        ensures d != c && (Precedes(c, d) <==> !Precedes(d, c)) && Precedes(d, backdrop)
      {
        var i :| 0 <= i < n && shorter[i] == d;
        assert layers[i].layer != layers[n].layer;
      }
      hide Precedes, TwoLeast, Considered;
      ConsiderKeeps(backdrop, shorter, Fold(backdrop, shorter), c);
      assert shorter + [c] == layers;
    }
  }

  /** The pair mixed does not depend on the order the layers were evaluated in. */
  lemma OrderDoesNotMatter(backdrop: Candidate, xs: seq<Candidate>, ys: seq<Candidate>)
    requires PixelLayers(backdrop, xs) && PixelLayers(backdrop, ys)
    requires |xs| == |ys| && forall c :: c in xs <==> c in ys
    ensures Fold(backdrop, xs) == Fold(backdrop, ys)
  {
    FoldIsTwoLeast(backdrop, xs);
    FoldIsTwoLeast(backdrop, ys);
    var p, q := Fold(backdrop, xs), Fold(backdrop, ys);
    hide Fold, PixelLayers;
    if xs != [] {
      assert xs[0] in xs && ys[0] in ys;
      NotBoth(p.best, q.best);
      NotBoth(p.second, q.second);
    }
  }

  lemma NotBoth(a: Candidate, b: Candidate)
    ensures !(Precedes(a, b) && Precedes(b, a))
  {
  }

  /** The per-pixel mixing loop. */
  method MixPixel(backdrop: Candidate, layers: seq<Candidate>) returns (best: Candidate, second: Candidate)
    requires PixelLayers(backdrop, layers)
    ensures Pair(best, second) == Fold(backdrop, layers)
    ensures TwoLeast(backdrop, layers, Pair(best, second))
  {
    best, second := backdrop, backdrop;
    for i := 0 to |layers|
      invariant Pair(best, second) == Fold(backdrop, layers[..i])
    {
      assert layers[..i + 1][..i] == layers[..i];
      var candidate := layers[i];
      if Precedes(candidate, best) {
        second := best;
        best := candidate;
      } else if Precedes(candidate, second) {
        second := candidate;
      }
    }
    assert layers[..|layers|] == layers;
    FoldIsTwoLeast(backdrop, layers);
  }
}
