/** What each edit of the photo list does to it, and to nothing else. */
module PhotoEdits {
  import opened PhotoQueue
  import opened PhotoRuns
  import opened Wrappers

  /** The other photos, in their order. */
  function Others(photos: seq<Photo>, key: nat): seq<Photo> {
    if photos == [] then []
    else (if photos[0].key == key then [] else [photos[0]]) + Others(photos[1..], key)
  }

  lemma {:induction false} OthersSplit(a: seq<Photo>, b: seq<Photo>, key: nat)
    ensures Others(a + b, key) == Others(a, key) + Others(b, key)
    decreases |a|
  {
    if a == [] {
      assert a + b == b;
    } else {
      assert (a + b)[1..] == a[1..] + b;
      OthersSplit(a[1..], b, key);
    }
  }

  lemma {:induction false} OthersAreAll(photos: seq<Photo>, key: nat)
    requires forall k | 0 <= k < |photos| :: photos[k].key != key
    ensures Others(photos, key) == photos
  {
    if photos != [] {
      OthersAreAll(photos[1..], key);
    }
  }

  lemma OthersOfOne(p: Photo, key: nat)
    ensures Others([p], key) == if p.key == key then [] else [p]
  {
    assert [p][1..] == [];
  }

  /** The list with one photo put in anywhere has the same others. */
  lemma OthersAround(a: seq<Photo>, p: Photo, b: seq<Photo>)
    ensures Others(a + [p] + b, p.key) == Others(a, p.key) + Others(b, p.key)
  {
    OthersSplit(a + [p], b, p.key);
    OthersSplit(a, [p], p.key);
    OthersOfOne(p, p.key);
  }

  lemma WithoutIsOthers(photos: seq<Photo>, i: nat)
    requires i < |photos| && DistinctKeys(photos)
    ensures Without(photos, i) == Others(photos, photos[i].key)
  {
    var p := photos[i];
    assert photos == photos[..i] + [p] + photos[i + 1..];
    OthersAround(photos[..i], p, photos[i + 1..]);
    OthersAreAll(photos[..i], p.key);
    OthersAreAll(photos[i + 1..], p.key);
  }

  /** The place of a key in a list whose keys are distinct. */
  lemma IndexIs(photos: seq<Photo>, i: nat)
    requires i < |photos| && DistinctKeys(photos)
    ensures IndexOf(photos, photos[i].key) == i
  {
    var j := IndexOf(photos, photos[i].key);
    assert photos[i] in photos;
    assert j >= 0 && photos[j].key == photos[i].key;
  }

  lemma ButtonStays(s: State, photos: seq<Photo>)
    requires Valid(s)
    ensures Waited(s.(photos := photos)) == s.(photos := photos)
  {
    hide Core;
  }

  lemma ValidIsDistinct(s: State)
    requires Valid(s)
    ensures DistinctKeys(s.photos)
  {
  }

  /** Removing a photo leaves the others, in their order. */
  lemma RemovedIs(s: State, key: nat)
    requires Valid(s)
    ensures Removed(s, key) == s.(photos := Others(s.photos, key))
  {
    ValidIsDistinct(s);
    var i := IndexOf(s.photos, key);
    if i >= 0 {
      WithoutIsOthers(s.photos, i);
      ButtonStays(s, Others(s.photos, key));
    } else {
      assert forall k | 0 <= k < |s.photos| :: s.photos[k] in s.photos;
      OthersAreAll(s.photos, key);
    }
  }

  /** A photo moves by so many places, the others keep their order; a move
      past an end does nothing. */
  lemma MovedIs(s: State, i: nat, step: int)
    requires Valid(s) && i < |s.photos|
    ensures var key, t := s.photos[i].key, Moved(s, s.photos[i].key, step);
      && t == s.(photos := t.photos) && |t.photos| == |s.photos|
      && Others(t.photos, key) == Others(s.photos, key)
      && (if 0 <= i + step < |s.photos| then t.photos[i + step] == s.photos[i] else t == s)
  {
    ValidIsDistinct(s);
    IndexIs(s.photos, i);
    hide Valid;
    var j := i + step;
    if 0 <= j < |s.photos| {
      var rest := Without(s.photos, i);
      WithoutIsOthers(s.photos, i);
      PutBackIs(s.photos, i, j);
      ButtonStays(s, rest[..j] + [s.photos[i]] + rest[j..]);
      hide Others;
    }
  }

  /** A photo taken out and put in elsewhere. */
  lemma PutBackIs(photos: seq<Photo>, i: nat, j: nat)
    requires i < |photos| && j < |photos| && DistinctKeys(photos)
    ensures var rest := Without(photos, i);
      j <= |rest| && Others(rest[..j] + [photos[i]] + rest[j..], photos[i].key) == Others(photos, photos[i].key)
  {
    hide Others;
    var rest := Without(photos, i);
    WithoutIsOthers(photos, i);
    OthersAround(rest[..j], photos[i], rest[j..]);
    assert rest[..j] + rest[j..] == rest;
    OthersSplit(rest[..j], rest[j..], photos[i].key);
    OthersTwice(photos, photos[i].key);
  }

  lemma {:induction false} OthersTwice(photos: seq<Photo>, key: nat)
    ensures Others(Others(photos, key), key) == Others(photos, key)
  {
    if photos != [] {
      OthersTwice(photos[1..], key);
      OthersSplit(if photos[0].key == key then [] else [photos[0]], Others(photos[1..], key), key);
      OthersOfOne(photos[0], key);
    }
  }

  /** A caption changes that of its photo and nothing else. */
  lemma CaptionedIs(s: State, i: nat, alt: string)
    requires Valid(s) && i < |s.photos|
    ensures var p, t := s.photos[i], Captioned(s, s.photos[i].key, alt);
      && t == s.(photos := t.photos) && |t.photos| == |s.photos|
      && t.photos[i] == Photo(p.key, p.blob, alt, p.from)
      && forall k | 0 <= k < |s.photos| && k != i :: t.photos[k] == s.photos[k]
  {
    ValidIsDistinct(s);
    IndexIs(s.photos, i);
    ButtonStays(s, s.photos[i := s.photos[i].(alt := alt)]);
  }

  function KeysOf(photos: seq<Photo>): seq<nat> {
    seq(|photos|, i requires 0 <= i < |photos| => photos[i].key)
  }

  /** Those of an order that are keys of a photo. */
  function Known(order: seq<nat>, photos: seq<Photo>): seq<nat> {
    if order == [] then []
    else (if order[0] in KeysOf(photos) then [order[0]] else []) + Known(order[1..], photos)
  }

  lemma {:induction false} PickedKeys(photos: seq<Photo>, order: seq<nat>)
    ensures KeysOf(Picked(photos, order)) == Known(order, photos)
    ensures forall p | p in Picked(photos, order) :: p in photos
    decreases |order|
  {
    if order != [] {
      PickedKeys(photos, order[1..]);
      var i, rest := IndexOf(photos, order[0]), Picked(photos, order[1..]);
      if i >= 0 {
        assert KeysOf(photos)[i] == order[0];
        assert KeysOf([photos[i]] + rest) == [order[0]] + KeysOf(rest);
      } else {
        assert forall k | 0 <= k < |photos| :: photos[k] in photos && KeysOf(photos)[k] == photos[k].key;
        assert [] + rest == rest;
      }
    }
  }

  lemma {:induction false} PickedHas(photos: seq<Photo>, order: seq<nat>, i: nat)
    requires i < |photos| && DistinctKeys(photos) && photos[i].key in order
    ensures photos[i] in Picked(photos, order)
    decreases |order|
  {
    if order[0] == photos[i].key {
      IndexIs(photos, i);
    } else {
      PickedHas(photos, order[1..], i);
    }
  }

  lemma SetOf<T>(xs: seq<T>) returns (all: set<T>)
    requires Distinct(xs)
    ensures |all| == |xs| && forall x :: x in all <==> x in xs
  {
    all := {};
    for k := 0 to |xs|
      invariant |all| == k && forall x :: x in all <==> x in xs[..k]
    {
      assert xs[..k + 1] == xs[..k] + [xs[k]];
      all := all + {xs[k]};
    }
    assert xs[..|xs|] == xs;
  }

  lemma KeysDistinct(photos: seq<Photo>)
    requires DistinctKeys(photos)
    ensures Distinct(photos)
  {
  }

  /** A drag's end puts the photos in the tiles' order; where a photo has no
      tile the list stays as it was. */
  lemma DraggedIs(s: State, order: seq<nat>)
    requires Valid(s) && Distinct(order)
    ensures var t := Dragged(s, order);
      && t == s.(photos := t.photos)
      && (if forall p | p in s.photos :: p.key in order then
            KeysOf(t.photos) == Known(order, s.photos) && |t.photos| == |s.photos|
            && forall p :: p in t.photos <==> p in s.photos
          else t == s)
  {
    ValidIsDistinct(s);
    var picked := Picked(s.photos, order);
    PickedIsWithin(s.photos, order);
    PickedKeys(s.photos, order);
    KeysDistinct(s.photos);
    KeysDistinct(picked);
    var all := SetOf(s.photos);
    var got := SetOf(picked);
    ButtonStays(s, if |picked| == |s.photos| then picked else s.photos);
    hide Valid;
    hide Picked;
    assert got <= all;
    if forall p | p in s.photos :: p.key in order {
      forall p | p in all
        ensures p in got
      {
        var i :| 0 <= i < |s.photos| && s.photos[i] == p;
        PickedHas(s.photos, order, i);
      }
      assert got == all;
    } else {
      var p :| p in s.photos && p.key !in order;
      assert p in all && p !in got;
      SmallerIsFewer(got, all, p);
    }
  }

  lemma SmallerIsFewer<T>(a: set<T>, b: set<T>, x: T)
    requires a <= b && x in b && x !in a
    ensures |a| < |b|
  {
    assert b == a + (b - a) && x in b - a;
    assert |b - a| > 0;
  }

  /** A restored draft's photos are the list, with new keys. */
  lemma RestoredIs(s: State, blobs: seq<(string, string)>)
    requires Valid(s)
    ensures var t := Restored(s, blobs);
      && |t.photos| == |blobs| && DistinctKeys(t.photos)
      && forall i | 0 <= i < |blobs| ::
           && t.photos[i].blob == blobs[i].0 && t.photos[i].alt == blobs[i].1 && t.photos[i].from == None
           && forall p | p in s.photos :: p.key != t.photos[i].key
  {
  }
}
