/** The gallery half of the image picker (`DisplayImages` and the
    selection strip): which stored images are offered, how they are paged,
    and the list filters the picker applies to its selection and listing. */
module Gallery {
  import opened Web
  import opened Seqs

  /** An entry of the bucket listing; its `Key` may be missing. */
  datatype StoredObject = StoredObject(key: Option<string>)

  const ImagesPerPage: nat := 10

  /** `file.Key ?? ""` */
  function KeyOrEmpty(o: StoredObject): string
  {
    if o.key.Some? then o.key.value else ""
  }

  /** The test `item !== key`. */
  function NotKey(key: string): string -> bool
  {
    (k: string) => k != key
  }

  /** The test `file.Key !== key`. */
  function OtherKey(key: string): StoredObject -> bool
  {
    (o: StoredObject) => o.key != Some(key)
  }

  /** `prev.filter((item) => item !== key)`: every occurrence of `key` goes,
      every other key keeps its occurrences. */
  function Without(keys: seq<string>, key: string): (r: seq<string>)
    ensures key !in r
    ensures forall k | k != key :: multiset(r)[k] == multiset(keys)[k]
    ensures key !in keys ==> r == keys
  {
    var r := Keep(keys, NotKey(key));
    assert forall k | k != key :: multiset(r)[k] == multiset(keys)[k] by {
      forall k | k != key ensures multiset(r)[k] == multiset(keys)[k] {
        KeepCounts(keys, NotKey(key), k);
      }
    }
    if key !in keys then
      KeepAll(keys, NotKey(key));
      r
    else
      r
  }

  /** Removing a key works part by part, so the remaining keys keep their order. */
  lemma WithoutAppend(a: seq<string>, b: seq<string>, key: string)
    ensures Without(a + b, key) == Without(a, key) + Without(b, key)
  {
    KeepAppend(a, b, NotKey(key));
  }

  /** `prev.filter((file) => file.Key !== key)`: objects without a key stay. */
  function KeepOtherKeys(files: seq<StoredObject>, key: string): (r: seq<StoredObject>)
    ensures forall o :: o in r <==> o in files && o.key != Some(key)
    ensures forall o: StoredObject | o.key != Some(key) :: multiset(r)[o] == multiset(files)[o]
  {
    var r := Keep(files, OtherKey(key));
    assert forall o: StoredObject | o.key != Some(key) :: multiset(r)[o] == multiset(files)[o] by {
      forall o: StoredObject | o.key != Some(key) ensures multiset(r)[o] == multiset(files)[o] {
        KeepCounts(files, OtherKey(key), o);
      }
    }
    r
  }

  /** Deleting from the listing works part by part, so the remaining
      objects keep their order. */
  lemma KeepOtherKeysAppend(a: seq<StoredObject>, b: seq<StoredObject>, key: string)
    ensures KeepOtherKeys(a + b, key) == KeepOtherKeys(a, key) + KeepOtherKeys(b, key)
  {
    KeepAppend(a, b, OtherKey(key));
  }

  /** `toLowerCase`, for the ASCII letters. */
  function LowerChar(c: char): (r: char)
    ensures 'A' <= c <= 'Z' ==> 'a' <= r <= 'z' && r as int - c as int == 'a' as int - 'A' as int
    ensures !('A' <= c <= 'Z') ==> r == c
  {
    if 'A' <= c <= 'Z' then (c as int + 32) as char else c
  }

  /** Same length, no ASCII capital left, every other character kept. */
  function ToLower(s: string): (r: string)
    ensures |r| == |s|
    ensures forall i | 0 <= i < |r| :: !('A' <= r[i] <= 'Z')
    ensures forall i | 0 <= i < |s| :: !('A' <= s[i] <= 'Z') ==> r[i] == s[i]
  {
    seq(|s|, i requires 0 <= i < |s| => LowerChar(s[i]))
  }

  /** `s.includes(sub)`. */
  predicate Includes(s: string, sub: string)
    decreases |s|
    ensures Includes(s, sub) ==> |sub| <= |s|
    ensures sub == [] ==> Includes(s, sub)
  {
    if |sub| > |s| then false
    else if s[..|sub|] == sub then true
    else Includes(s[1..], sub)
  }

  /** `sub` occurs in `s` starting at position `i`. */
  predicate OccursAt(s: string, sub: string, i: nat)
  {
    i + |sub| <= |s| && s[i..i + |sub|] == sub
  }

  /** `includes` holds exactly when `sub` occurs at some position. */
  lemma {:induction false} IncludesIff(s: string, sub: string)
    decreases |s|
    ensures Includes(s, sub) <==> exists i: nat :: OccursAt(s, sub, i)
  {
    if |sub| <= |s| {
      if s[..|sub|] == sub {
        assert OccursAt(s, sub, 0);
      } else {
        IncludesIff(s[1..], sub);
        if Includes(s, sub) {
          var j: nat :| OccursAt(s[1..], sub, j);
          assert s[j + 1..j + 1 + |sub|] == s[1..][j..j + |sub|];
          assert OccursAt(s, sub, j + 1);
        } else if exists i: nat :: OccursAt(s, sub, i) {
          var i: nat :| OccursAt(s, sub, i);
          assert i != 0;
          assert s[1..][i - 1..i - 1 + |sub|] == s[i..i + |sub|];
          assert OccursAt(s[1..], sub, i - 1);
        }
      }
    } else {
      forall i: nat ensures !OccursAt(s, sub, i) {
      }
    }
  }

  /** The gallery's filter: the key is not already selected, and it
      contains the search text, letter case ignored. */
  predicate Shown(o: StoredObject, selected: seq<string>, search: string)
  {
    KeyOrEmpty(o) !in selected && o.key.Some? && Includes(ToLower(o.key.value), ToLower(search))
  }

  function Visible(files: seq<StoredObject>, selected: seq<string>, search: string): (r: seq<StoredObject>)
    ensures forall o :: o in r <==> o in files && Shown(o, selected, search)
    ensures |r| <= |files|
  {
    Keep(files, o => Shown(o, selected, search))
  }

  /** An empty search hides only the selected and the keyless objects. */
  lemma EmptySearchMatchesEveryKey(o: StoredObject, selected: seq<string>)
    requires o.key.Some?
    ensures Shown(o, selected, "") <==> o.key.value !in selected
  {
    assert ToLower(o.key.value)[..0] == ToLower("");
  }

  /** `Array.prototype.slice` positions: negative ones count from the end,
      all are clamped to the length. */
  function SliceIndex(x: int, n: nat): (r: nat)
    ensures r <= n
    ensures 0 <= x <= n ==> r == x
    ensures x < 0 && -x <= n ==> r == n + x
  {
    if x < 0 then (if n + x < 0 then 0 else n + x) else if x > n then n else x
  }

  /** `s.slice(start, end)`: the run between the two positions, empty
      when the end does not come after the start. */
  function Slice<T>(s: seq<T>, start: int, end: int): (r: seq<T>)
    ensures |r| <= |s|
    ensures 0 <= start <= end <= |s| ==> r == s[start..end]
    ensures 0 <= end <= start ==> r == []
    ensures SliceIndex(start, |s|) + |r| <= |s|
    ensures forall i | 0 <= i < |r| :: r[i] == s[SliceIndex(start, |s|) + i]
  {
    var a, b := SliceIndex(start, |s|), SliceIndex(end, |s|);
    if a < b then s[a..b] else []
  }

  /** What page `page` of the gallery shows. */
  function PageOf(files: seq<StoredObject>, selected: seq<string>, search: string, page: int): (r: seq<StoredObject>)
    ensures |r| <= ImagesPerPage
    ensures forall o | o in r :: o in files && Shown(o, selected, search)
  {
    Slice(Visible(files, selected, search), (page - 1) * ImagesPerPage, page * ImagesPerPage)
  }

  /** A page holds at most ten offered images: the ten that follow the
      previous pages, in listing order. */
  lemma PageContents(files: seq<StoredObject>, selected: seq<string>, search: string, page: int)
    requires page >= 1
    ensures |PageOf(files, selected, search, page)| <= ImagesPerPage
    ensures forall o | o in PageOf(files, selected, search, page) :: o in files && Shown(o, selected, search)
    ensures var v := Visible(files, selected, search);
            var from := (page - 1) * ImagesPerPage;
            PageOf(files, selected, search, page) ==
              if from < |v| then v[from..if page * ImagesPerPage < |v| then page * ImagesPerPage else |v|] else []
  {
  }

  /** Every offered image sits on page `i / 10 + 1`, at place `i % 10`. */
  lemma ItemOnItsPage(files: seq<StoredObject>, selected: seq<string>, search: string, i: nat)
    requires i < |Visible(files, selected, search)|
    ensures var page := PageOf(files, selected, search, i / ImagesPerPage + 1);
            i % ImagesPerPage < |page| && page[i % ImagesPerPage] == Visible(files, selected, search)[i]
  {
    var q := i / ImagesPerPage;
    assert q * ImagesPerPage <= i < (q + 1) * ImagesPerPage;
    PageContents(files, selected, search, q + 1);
  }

  /** "Précedent" is disabled on the first page. */
  predicate PrevDisabled(page: int)
    ensures page >= 1 ==> (PrevDisabled(page) <==> page - 1 < 1)
  {
    page == 1
  }

  /** "Suivant" is disabled once the page reaches the listing's length
      less the selection's length (raw counts, not the offered images). */
  predicate NextDisabled(page: int, files: seq<StoredObject>, selected: seq<string>)
    ensures !NextDisabled(page, files, selected) ==> page * ImagesPerPage < |files|
    ensures selected == [] ==> (NextDisabled(page, files, selected) <==> |files| <= page * ImagesPerPage)
  {
    page * ImagesPerPage >= |files| - |selected|
  }

  /** Because Next compares raw counts, a selected key that the listing no
      longer holds can leave an offered image on a page Next cannot reach. */
  lemma NextDisabledWhileItemsRemain()
    ensures var files := seq(11, i requires 0 <= i < 11 => StoredObject(Some([('a' as int + i) as char])));
            NextDisabled(1, files, ["z"]) && PageOf(files, ["z"], "", 2) != []
  {
    var files := seq(11, i requires 0 <= i < 11 => StoredObject(Some([('a' as int + i) as char])));
    forall i | 0 <= i < |files| ensures Shown(files[i], ["z"], "") {
      EmptySearchMatchesEveryKey(files[i], ["z"]);
    }
    KeepAll(files, o => Shown(o, ["z"], ""));
  }
}
