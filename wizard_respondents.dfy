/** The respondents step of the survey wizard: choosing a group's channel for one mode, the
    summary of the entries a rejected upload had wrong, and the modes a survey offers. */
module WizardRespondents {
  import opened Js
  import opened RespondentGroups

  /** The channels of a group other than those of one type, in order; `allChannels` gives the type
      of each channel id. */
  function OtherTypes(ids: seq<int>, allChannels: map<int, string>, kind: string): (r: seq<int>)
    requires forall k :: 0 <= k < |ids| ==> ids[k] in allChannels
    ensures forall k :: 0 <= k < |r| ==> r[k] in allChannels && allChannels[r[k]] != kind
    ensures forall id :: id in r <==> id in ids && allChannels[id] != kind
    ensures |r| <= |ids|
  {
    if ids == [] then []
    else
      var rest := OtherTypes(ids[..|ids| - 1], allChannels, kind);
      var last := ids[|ids| - 1];
      assert forall id :: id in ids <==> id in ids[..|ids| - 1] || id == last by {
        assert ids == ids[..|ids| - 1] + [last];
      }
      if allChannels[last] != kind then rest + [last] else rest
  }

  /** The filter keeps the order: filtering a list in two parts filters each part in place. */
  lemma {:induction false} OtherTypesAppend(a: seq<int>, b: seq<int>, allChannels: map<int, string>, kind: string)
    requires forall k :: 0 <= k < |a| ==> a[k] in allChannels
    requires forall k :: 0 <= k < |b| ==> b[k] in allChannels
    ensures forall k :: 0 <= k < |a + b| ==> (a + b)[k] in allChannels
    ensures OtherTypes(a + b, allChannels, kind) == OtherTypes(a, allChannels, kind) + OtherTypes(b, allChannels, kind)
    decreases |b|
  {
    assert forall k :: 0 <= k < |a + b| ==> (a + b)[k] in allChannels by {
      forall k | 0 <= k < |a + b|
        ensures (a + b)[k] in allChannels
      {
        if k < |a| { assert (a + b)[k] == a[k]; } else { assert (a + b)[k] == b[k - |a|]; }
      }
    }
    if b == [] {
      assert a + b == a;
    } else {
      var init := b[..|b| - 1];
      OtherTypesAppend(a, init, allChannels, kind);
      assert (a + b)[..|a + b| - 1] == a + init;
    }
  }

  /** `channelChange`: every channel of the edited type is dropped, the others kept in order, the
      selected one (when there is one) appended, and every id passed through `parseInt`, the kept
      ones as their decimal text. A channel
      missing from `allChannels` makes the filter read `type` of undefined. */
  function ChannelChange(channels: Option<seq<int>>, value: string, kind: string,
                         allChannels: map<int, string>): (r: Outcome<seq<Num>>)
    ensures var current := if channels.Some? then channels.value else [];
      r.Thrown? <==> exists k :: 0 <= k < |current| && current[k] !in allChannels
  {
    var current := if channels.Some? then channels.value else [];
    if exists k :: 0 <= k < |current| && current[k] !in allChannels then
      Thrown("TypeError: Cannot read property 'type' of undefined")
    else
      var kept := OtherTypes(current, allChannels, kind);
      Done(seq(|kept|, i requires 0 <= i < |kept| => ParseInt(IntToString(kept[i])))
           + (if value != "" then [ParseInt(value)] else []))
  }

  /** The new channels are the channels of the other types, unchanged, then the one selected when
      there is one: of the edited type at most that one remains, and none for an empty selection. */
  lemma ChannelChangeReplaces(channels: Option<seq<int>>, value: string, kind: string, allChannels: map<int, string>)
    requires var current := if channels.Some? then channels.value else [];
      forall k :: 0 <= k < |current| ==> current[k] in allChannels
    ensures var current := if channels.Some? then channels.value else [];
      var kept := OtherTypes(current, allChannels, kind);
      var r := ChannelChange(channels, value, kind, allChannels).value;
      && |r| == |kept| + (if value != "" then 1 else 0)
      && (forall k :: 0 <= k < |kept| ==> r[k] == Int(kept[k]) && allChannels[kept[k]] != kind)
      && (value != "" ==> r[|r| - 1] == ParseInt(value))
  {
    var current := if channels.Some? then channels.value else [];
    var kept := OtherTypes(current, allChannels, kind);
    forall k | 0 <= k < |kept|
      ensures ParseInt(IntToString(kept[k])) == Int(kept[k])
    {
      ParseIntOfIntToString(kept[k]);
    }
  }

  /** The summary of a rejected upload. */
  datatype Summary = Summary(filename: string, invalidEntriesText: string, lineNumbers: seq<int>,
                             extraLinesCount: int, lineNumbersText: string)

  /** `invalidRespondentsContent`: nothing without data; otherwise the wording for one entry or
      several, the first three line numbers, and how many more there are. */
  function InvalidRespondentsContent(data: Option<Invalids>): (r: Option<Summary>)
    ensures r.None? <==> data.None?
  {
    if data.None? then None
    else
      var entries := data.value.invalidEntries;
      var invalidEntriesText := if |entries| == 1 then "An invalid entry was found at line "
                                else "Invalid entries were found at lines ";
      var shown := Slice(entries, 0, 3);
      var lineNumbers := seq(|shown|, i requires 0 <= i < |shown| => shown[i].lineNumber);
      var extraLinesCount := |entries| - |lineNumbers|;
      var texts := seq(|lineNumbers|, i requires 0 <= i < |lineNumbers| => IntToString(lineNumbers[i]));
      var lineNumbersText := Join(texts, ", ")
        + (if extraLinesCount > 0 then " and " + IntToString(extraLinesCount) + " more." else "");
      Some(Summary(data.value.filename, invalidEntriesText, lineNumbers, extraLinesCount, lineNumbersText))
  }

  /** At most three line numbers are listed, the first ones in the file's order; the count of the
      others makes up the total, and is mentioned exactly when there are more than three. The
      singular wording is used exactly when there is one entry. */
  lemma SummaryCounts(filename: string, entries: seq<InvalidEntry>)
    ensures var s := InvalidRespondentsContent(Some(Invalids(filename, entries))).value;
      && |s.lineNumbers| == (if |entries| < 3 then |entries| else 3)
      && (forall i :: 0 <= i < |s.lineNumbers| ==> s.lineNumbers[i] == entries[i].lineNumber)
      && |s.lineNumbers| + s.extraLinesCount == |entries|
      && (s.extraLinesCount > 0 <==> |entries| > 3)
      && (s.invalidEntriesText == "An invalid entry was found at line " <==> |entries| == 1)
      && s.filename == filename
  {
  }

  /** The modes of a survey as one list: the mode combinations one after the other. */
  function FlatModes(mode: seq<seq<string>>): seq<string> {
    if mode == [] then [] else FlatModes(mode[..|mode| - 1]) + mode[|mode| - 1]
  }

  /** `uniq`: the first occurrence of every element, in order. */
  function Uniq(xs: seq<string>): seq<string> {
    if xs == [] then []
    else
      var init := Uniq(xs[..|xs| - 1]);
      if xs[|xs| - 1] in xs[..|xs| - 1] then init else init + [xs[|xs| - 1]]
  }

  predicate Distinct(xs: seq<string>) {
    forall i, j :: 0 <= i < j < |xs| ==> xs[i] != xs[j]
  }

  /** `uniq` keeps every element once and nothing else. */
  lemma {:induction false} UniqKeepsEachOnce(xs: seq<string>)
    ensures Distinct(Uniq(xs))
    ensures forall x :: x in Uniq(xs) <==> x in xs
  {
    if xs != [] {
      var init := xs[..|xs| - 1];
      UniqKeepsEachOnce(init);
      assert xs == init + [xs[|xs| - 1]];
    }
  }

  /** Appending an element keeps the first occurrence of anything already listed. */
  lemma IndexOfSnoc(xs: seq<string>, x: string, y: string)
    requires x in xs
    ensures IndexOf(xs + [y], x) == IndexOf(xs, x)
  {
    var k := IndexOf(xs, x);
    assert (xs + [y])[k] == x && (xs + [y])[..k] == xs[..k];
    assert forall i :: 0 <= i < k ==> (xs + [y])[i] == xs[..k][i];
  }

  /** `uniq` lists the elements in the order of their first occurrences. Together with
      UniqKeepsEachOnce this determines the result. */
  lemma {:induction false} UniqFirstOccurrences(xs: seq<string>)
    ensures forall i, j :: 0 <= i < j < |Uniq(xs)| ==> IndexOf(xs, Uniq(xs)[i]) < IndexOf(xs, Uniq(xs)[j])
  {
    if xs != [] {
      var init := xs[..|xs| - 1];
      var last := xs[|xs| - 1];
      assert xs == init + [last];
      UniqFirstOccurrences(init);
      UniqKeepsEachOnce(init);
      var u := Uniq(xs);
      forall i, j | 0 <= i < j < |u|
        ensures IndexOf(xs, u[i]) < IndexOf(xs, u[j])
      {
        assert u[i] in Uniq(init);
        IndexOfSnoc(init, u[i], last);
        if j < |Uniq(init)| {
          IndexOfSnoc(init, u[j], last);
        } else {
          assert u[j] == last && last !in init;
          assert IndexOf(xs, last) == |init|;
        }
      }
    }
  }

  /** A list without repetitions is its own `uniq`. */
  lemma {:induction false} UniqOfDistinct(xs: seq<string>)
    requires Distinct(xs)
    ensures Uniq(xs) == xs
  {
    if xs != [] {
      var init := xs[..|xs| - 1];
      UniqOfDistinct(init);
      assert xs == init + [xs[|xs| - 1]];
    }
  }

  /** `allModes`: every mode the survey uses, each once; a survey without modes has none. */
  function AllModes(mode: Option<seq<seq<string>>>): (r: seq<string>)
    ensures mode.None? ==> r == []
  {
    Uniq(FlatModes(if mode.Some? then mode.value else []))
  }

  /** A mode is listed exactly when some combination uses it, only once, and in the order the
      combinations first use the modes (the order of the channel selectors). */
  lemma {:induction false} AllModesListsEachOnce(mode: seq<seq<string>>, m: string)
    ensures Distinct(AllModes(Some(mode)))
    ensures m in AllModes(Some(mode)) <==> exists i :: 0 <= i < |mode| && m in mode[i]
    ensures var all := AllModes(Some(mode)); var flat := FlatModes(mode);
      forall i, j :: 0 <= i < j < |all| ==> IndexOf(flat, all[i]) < IndexOf(flat, all[j])
  {
    UniqKeepsEachOnce(FlatModes(mode));
    UniqFirstOccurrences(FlatModes(mode));
    FlatModesHolds(mode, m);
  }

  lemma {:induction false} FlatModesHolds(mode: seq<seq<string>>, m: string)
    ensures m in FlatModes(mode) <==> exists i :: 0 <= i < |mode| && m in mode[i]
  {
    if mode != [] {
      var init := mode[..|mode| - 1];
      FlatModesHolds(init, m);
      if exists i :: 0 <= i < |init| && m in init[i] {
        var i :| 0 <= i < |init| && m in init[i];
        assert mode[i] == init[i];
      }
      if exists i :: 0 <= i < |mode| && m in mode[i] {
        var i :| 0 <= i < |mode| && m in mode[i];
        if i < |init| {
          assert mode[i] == init[i];
        }
      }
    }
  }
}
