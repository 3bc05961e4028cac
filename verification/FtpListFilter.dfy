/** The filter of a wildcard transfer: what of a LIST response is put on the list when names are compared
    with a pattern by the matcher of lib/curl_fnmatch.c. */
module FtpListFilter {
  import opened CText
  import opened Wrappers
  import opened FnmatchSpec
  import L = FtpList
  import R = FtpListRoundTrip
  import Fnmatch

  /** Names are bytes without a NUL. */
  predicate IsName(s: string) { forall i :: 0 <= i < |s| ==> s[i] as int < 256 && s[i] != NUL }

  /** The pattern stands for the name, and has no more star groups than the matcher follows. */
  ghost predicate Stands(pattern: ustring, name: string)
    requires IsCString(pattern)
  {
    && IsName(name)
    && Matches(Tokens(pattern, 0), name)
    && StarGroups(Tokens(pattern, 0)) <= 2
  }

  ghost function Glob(pattern: ustring): L.Filter
    requires IsCString(pattern)
  {
    name => Stands(pattern, name)
  }

  /** The comparison that ftp_pl_insert_finfo makes: 0 is a match. */
  method Compare(pattern: ustring, name: ustring) returns (r: int)
    requires IsCString(pattern) && IsCString(name)
    ensures r == 0 <==> Glob(pattern)(name)
  {
    var v;
    ghost var calls;
    v, calls := Fnmatch.CurlFnmatch(Some(pattern), Some(name));
    r := match v case Match => 0 case NoMatch => 1 case Failed => 2;
  }

  ghost predicate Wanted(pattern: ustring, e: R.Item)
    requires IsCString(pattern)
  {
    Stands(pattern, R.Text(e.name)) && !(e.fileType == L.Symlink && Contains(R.Text(e.target), " -> "))
  }

  /** The items that the pattern stands for, in order. */
  ghost function Chosen(items: seq<R.Item>, pattern: ustring): seq<R.Item>
    requires IsCString(pattern)
  {
    if items == [] then []
    else (if Wanted(pattern, items[0]) then [items[0]] else []) + Chosen(items[1..], pattern)
  }

  lemma {:induction false} KeptIsChosen(items: seq<R.Item>, pattern: ustring)
    requires IsCString(pattern)
    ensures R.Kept(items, Glob(pattern)) == Chosen(items, pattern)
    decreases |items|
  {
    hide Stands;
    if items != [] {
      KeptIsChosen(items[1..], pattern);
    }
  }

  /**
   * A printed listing under a pattern, with or without its "total" line and in any chunks: the list is
   * exactly the items the pattern stands for, of those read before the first line that is an error. For
   * links with unreadable names the item is the one the parser takes the line for.
   */
  lemma WildcardListing(pattern: ustring, total: Option<(nat, nat, bool)>, items: seq<R.Item>, chunks: seq<string>)
    requires IsCString(pattern) && forall e :: e in items ==> R.Printable(e)
    requires Flatten(chunks)
          == (if total.Some? then R.TotalLine(total.value.0, total.value.1, total.value.2) else "") + R.Listing(items)
    ensures var q := L.RunChunks(L.INITIAL, chunks, Glob(pattern));
      (q.error <==> !R.AllMean(items)) && R.AllDescribe(q.list, Chosen(R.ReadItems(items), pattern))
  {
    hide Stands, R.Listing, R.Printable, L.Run, L.RunChunks, R.TotalLine, R.Meaning, R.AllMean;
    R.ChunkedListingMeaning(total, items, chunks, Glob(pattern));
    KeptIsChosen(R.ReadItems(items), pattern);
  }

  /** Items that are read as themselves. */
  lemma {:induction false} ReadAsThemselves(items: seq<R.Item>)
    requires forall e :: e in items ==> R.WellFormed(e)
    ensures R.ReadItems(items) == items && R.AllMean(items)
    decreases |items|
  {
    hide R.Readable;
    if items != [] {
      ReadAsThemselves(items[1..]);
      assert R.WellFormed(items[0]);
      assert [items[0]] + items[1..] == items;
      assert forall i :: 0 < i < |items| ==> items[i] == items[1..][i - 1];
    }
  }

  /** Under the pattern "*" every name passes. */
  lemma StarListsAll(name: string)
    requires IsName(name)
    ensures Stands("*", name)
  {
    var p: ustring := "*";
    assert Tokens(p, 1) == [];
    assert Tokens(p, 0) == [Star];
    assert SkipGroup([]) == [];
    StarTakesAll(name);
  }
}
