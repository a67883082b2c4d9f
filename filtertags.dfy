/** The tag chips of the filter panel: pressing a chip toggles its tag in the
    selection. */
module FilterTags {
  import opened Seqs

  /** Nothing is shown when there are no tags to offer. */
  predicate Shown(tags: seq<string>) {
    |tags| > 0
  }

  /** `t => t !== tag`. */
  function OtherTag(tag: string): string -> bool {
    (t: string) => t != tag
  }

  /** `toggle`: remove every occurrence of a selected tag, append one that is not. */
  function Toggle(selected: seq<string>, tag: string): (r: seq<string>)
    ensures tag in r <==> tag !in selected
    ensures tag !in selected ==> |r| == |selected| + 1 && r[|r| - 1] == tag
    ensures tag in selected ==> |r| < |selected|
  {
    if tag in selected then
      var r := Filter(selected, OtherTag(tag));
      assert |r| < |selected| by {
        FilterDrops(selected, OtherTag(tag), IndexOf(selected, tag));
      }
      r
    else selected + [tag]
  }

  lemma {:induction false} FilterDrops<T>(s: seq<T>, p: T -> bool, k: nat)
    requires k < |s| && !p(s[k])
    ensures |Filter(s, p)| < |s|
  {
    if k > 0 {
      FilterDrops(s[1..], p, k - 1);
    }
  }

  /** The other tags keep their order and their number, whichever way the tag is
      toggled. */
  lemma ToggleKeepsOthers(selected: seq<string>, tag: string)
    ensures Filter(Toggle(selected, tag), OtherTag(tag)) == Filter(selected, OtherTag(tag))
  {
    var p := OtherTag(tag);
    if tag in selected {
      FilterFilter(selected, p, p, p);
    } else {
      FilterAppend(selected, [tag], p);
      assert Filter([tag], p) == [] by {
        assert [tag][1..] == [];
      }
    }
  }

  /** Toggling a tag that is not selected twice gives the selection back. */
  lemma ToggleTwice(selected: seq<string>, tag: string)
    requires tag !in selected
    ensures Toggle(Toggle(selected, tag), tag) == selected
  {
    var p := OtherTag(tag);
    ToggleKeepsOthers(selected, tag);
    FilterAllKept(selected, p);
  }
}
