/**
 * The text of the reminder mail, `mailBody`. Go visits a map in an
 * unspecified order, so a body is characterised up to the order in which the
 * hosts of each section are listed.
 */
module Body {
  import opened Text
  import opened Times
  import opened Settings
  import opened Reminder

  const SoonTitle: string := "Certificates of following hosts expires soon:"
  const OthersTitle: string := "Others have enough time to be expired:"

  /** The first write to the buffer. */
  const SoonHeader: string := SoonTitle + "\n"
  /** The write that opens the second section: a blank line, then its title. */
  const OthersHeader: string := "\n" + OthersTitle + "\n"

  /** `fmt.Sprintf("%v: %v", host, ex)`, with `format` standing for `%v` of a time. */
  function Entry(host: Host, ex: Time, format: Time -> string): string {
    host + ": " + format(ex)
  }

  /** One written line: the entry, then a newline. */
  function HostLine(host: Host, ex: Time, format: Time -> string): string {
    Entry(host, ex, format) + "\n"
  }

  /** An entry is the host, then a colon and a space, then the formatted expiration. */
  lemma EntryLayout(host: Host, ex: Time, format: Time -> string)
    ensures var e := Entry(host, ex, format);
      && |e| == |host| + 2 + |format(ex)|
      && e[..|host|] == host && e[|host|] == ':' && e[|host| + 1] == ' '
      && e[|host| + 2..] == format(ex)
  {
  }

  /** A written line is its entry and one newline after it. */
  lemma HostLineLayout(host: Host, ex: Time, format: Time -> string)
    ensures var line := HostLine(host, ex, format);
      && |line| == |Entry(host, ex, format)| + 1 && line[|line| - 1] == '\n'
      && line[..|line| - 1] == Entry(host, ex, format)
  {
  }

  /** The buffer writes of one section, for the hosts in the order `order`. */
  function Section(order: seq<Host>, m: map<Host, Time>, format: Time -> string): string
    requires forall i :: 0 <= i < |order| ==> order[i] in m
    decreases |order|
  {
    if order == [] then ""
    else Section(order[..|order| - 1], m, format) + HostLine(order[|order| - 1], m[order[|order| - 1]], format)
  }

  /** The lines a reader sees for one section. */
  function Entries(order: seq<Host>, m: map<Host, Time>, format: Time -> string): (lines: seq<string>)
    requires forall i :: 0 <= i < |order| ==> order[i] in m
    ensures |lines| == |order|
    ensures forall i :: 0 <= i < |order| ==> lines[i] == Entry(order[i], m[order[i]], format)
    decreases |order|
  {
    if order == [] then []
    else Entries(order[..|order| - 1], m, format) + [Entry(order[|order| - 1], m[order[|order| - 1]], format)]
  }

  /** `order` lists every key of `keys` exactly once. */
  ghost predicate IsEnumeration(order: seq<Host>, keys: set<Host>) {
    && |order| == |keys|
    && (forall i :: 0 <= i < |order| ==> order[i] in keys)
    && (forall i, j :: 0 <= i < j < |order| ==> order[i] != order[j])
    && (forall k :: k in keys ==> k in order)
  }

  /** The body for given section orders: header, soon lines, and the others section if any. */
  function Render(soonOrder: seq<Host>, othersOrder: seq<Host>,
                  soon: map<Host, Time>, others: map<Host, Time>, format: Time -> string): string
    requires forall i :: 0 <= i < |soonOrder| ==> soonOrder[i] in soon
    requires forall i :: 0 <= i < |othersOrder| ==> othersOrder[i] in others
  {
    SoonHeader + Section(soonOrder, soon, format)
    + (if |others| > 0 then OthersHeader + Section(othersOrder, others, format) else "")
  }

  /** `body` is a text `mailBody` can produce for this snapshot and threshold. */
  ghost predicate IsMailBody(body: string, exMap: map<Host, Time>, threshold: Time, format: Time -> string) {
    exists soonOrder: seq<Host>, othersOrder: seq<Host> ::
      && IsEnumeration(soonOrder, Soon(exMap, threshold).Keys)
      && IsEnumeration(othersOrder, Others(exMap, threshold).Keys)
      && body == Render(soonOrder, othersOrder, Soon(exMap, threshold), Others(exMap, threshold), format)
  }

  /** The second and third loops of `mailBody`: one line per host of `m`, in any order. */
  method WriteEntries(buf: string, m: map<Host, Time>, format: Time -> string)
    returns (written: string, ghost order: seq<Host>)
    ensures IsEnumeration(order, m.Keys)
    ensures written == buf + Section(order, m, format)
  {
    written := buf;
    order := [];
    var rest := m.Keys;
    while rest != {}
      invariant rest <= m.Keys
      invariant forall i :: 0 <= i < |order| ==> order[i] in m.Keys && order[i] !in rest
      invariant forall i, j :: 0 <= i < j < |order| ==> order[i] != order[j]
      invariant forall k :: k in m.Keys && k !in rest ==> k in order
      invariant |order| + |rest| == |m.Keys|
      invariant written == buf + Section(order, m, format)
      decreases |rest|
    {
      var host :| host in rest;
      written := written + HostLine(host, m[host], format);
      order := order + [host];
      rest := rest - {host};
    }
  }

  /** A body rendered from enumerations of both sections is a mail body, and starts with the header. */
  lemma RenderedIsMailBody(body: string, soonOrder: seq<Host>, othersOrder: seq<Host>,
                           exMap: map<Host, Time>, threshold: Time, format: Time -> string)
    requires IsEnumeration(soonOrder, Soon(exMap, threshold).Keys)
    requires IsEnumeration(othersOrder, Others(exMap, threshold).Keys)
    requires body == Render(soonOrder, othersOrder, Soon(exMap, threshold), Others(exMap, threshold), format)
    ensures IsMailBody(body, exMap, threshold, format)
    ensures |SoonHeader| <= |body| && body[..|SoonHeader|] == SoonHeader
  {
  }

  method MailBody(config: Config, now: Time, exMap: map<Host, Time>, format: Time -> string)
    returns (body: string)
    ensures IsMailBody(body, exMap, Threshold(config, now), format)
    ensures |SoonHeader| <= |body| && body[..|SoonHeader|] == SoonHeader
  {
    var threshold := Threshold(config, now);
    var soon, others := Partition(exMap, threshold);
    var buf := SoonHeader;
    ghost var soonOrder, othersOrder;
    buf, soonOrder := WriteEntries(buf, soon, format);
    ghost var soonPart := buf;
    othersOrder := [];
    if |others| > 0 {
      buf := buf + OthersHeader;
      buf, othersOrder := WriteEntries(buf, others, format);
    } else {
      assert others.Keys == {};
    }
    body := buf;
    assert body == soonPart + (if |others| > 0 then OthersHeader + Section(othersOrder, others, format) else "");
    RenderedIsMailBody(body, soonOrder, othersOrder, exMap, threshold, format);
  }

  // ---- reading the body back line by line ---------------------------------

  /** The lines of a body: the soon title, the soon entries, then what `OtherLines` gives. */
  function BodyLines(soonOrder: seq<Host>, othersOrder: seq<Host>,
                     soon: map<Host, Time>, others: map<Host, Time>, format: Time -> string): seq<string>
    requires forall i :: 0 <= i < |soonOrder| ==> soonOrder[i] in soon
    requires forall i :: 0 <= i < |othersOrder| ==> othersOrder[i] in others
  {
    [SoonTitle] + Entries(soonOrder, soon, format) + OtherLines(othersOrder, others, format)
  }

  /**
   * The lines after the soon entries: a blank line, the others title and the
   * others entries when there are other hosts; in every case the empty rest
   * after the final newline.
   */
  function OtherLines(othersOrder: seq<Host>, others: map<Host, Time>, format: Time -> string): seq<string>
    requires forall i :: 0 <= i < |othersOrder| ==> othersOrder[i] in others
  {
    if |others| > 0 then ["", OthersTitle] + Entries(othersOrder, others, format) + [""] else [""]
  }

  lemma {:induction false} SectionJoin(order: seq<Host>, m: map<Host, Time>, format: Time -> string, tail: seq<string>)
    requires forall i :: 0 <= i < |order| ==> order[i] in m
    requires |tail| >= 1
    ensures Section(order, m, format) + Join(tail, '\n') == Join(Entries(order, m, format) + tail, '\n')
    decreases |order|
  {
    if order != [] {
      var init, host := order[..|order| - 1], order[|order| - 1];
      var entry := Entry(host, m[host], format);
      JoinCons(entry, tail, '\n');
      SectionJoin(init, m, format, [entry] + tail);
      assert Section(order, m, format) + Join(tail, '\n')
          == Section(init, m, format) + (entry + ['\n'] + Join(tail, '\n'));
      assert Entries(init, m, format) + ([entry] + tail) == Entries(order, m, format) + tail;
    } else {
      assert Entries(order, m, format) + tail == tail;
    }
  }

  /** The others section is its lines, after the blank one, joined with newlines. */
  lemma OthersSectionIsJoin(othersOrder: seq<Host>, others: map<Host, Time>, format: Time -> string)
    requires forall i :: 0 <= i < |othersOrder| ==> othersOrder[i] in others
    ensures OthersHeader + Section(othersOrder, others, format)
         == Join(["", OthersTitle] + Entries(othersOrder, others, format) + [""], '\n')
  {
    var entries := Entries(othersOrder, others, format);
    var tail := [OthersTitle] + entries + [""];
    SectionJoin(othersOrder, others, format, [""]);
    JoinCons(OthersTitle, entries + [""], '\n');
    assert [OthersTitle] + (entries + [""]) == tail;
    JoinCons("", tail, '\n');
    assert [""] + tail == ["", OthersTitle] + entries + [""];
  }

  /** A titled block of lines, joined: the title line, then the joined rest. */
  lemma TitledJoin(title: string, sectionText: string, entries: seq<string>, restText: string, rest: seq<string>)
    requires |rest| >= 1
    requires restText == Join(rest, '\n')
    requires sectionText + Join(rest, '\n') == Join(entries + rest, '\n')
    ensures title + "\n" + sectionText + restText == Join([title] + entries + rest, '\n')
  {
    JoinCons(title, entries + rest, '\n');
    assert [title] + (entries + rest) == [title] + entries + rest;
  }

  /** A body is its lines joined with newlines. */
  lemma RenderIsJoin(soonOrder: seq<Host>, othersOrder: seq<Host>,
                     soon: map<Host, Time>, others: map<Host, Time>, format: Time -> string)
    requires forall i :: 0 <= i < |soonOrder| ==> soonOrder[i] in soon
    requires forall i :: 0 <= i < |othersOrder| ==> othersOrder[i] in others
    ensures Render(soonOrder, othersOrder, soon, others, format)
         == Join(BodyLines(soonOrder, othersOrder, soon, others, format), '\n')
  {
    var rest := OtherLines(othersOrder, others, format);
    var restText := if |others| > 0 then OthersHeader + Section(othersOrder, others, format) else "";
    if |others| > 0 {
      OthersSectionIsJoin(othersOrder, others, format);
    }
    SectionJoin(soonOrder, soon, format, rest);
    TitledJoin(SoonTitle, Section(soonOrder, soon, format), Entries(soonOrder, soon, format), restText, rest);
  }

  /** No host name and no formatted expiration of the snapshot contains a newline. */
  ghost predicate NewlineFree(m: map<Host, Time>, format: Time -> string) {
    forall h :: h in m ==> '\n' !in h && '\n' !in format(m[h])
  }

  // The solver does not see through a long string literal to rule out a
  // character in it; each title is therefore cut into short literals, which
  // it does check through the index-wise form below, and put back together.
  // This is a proof hint only: it says the same as `'\n' !in s`.
  predicate NewlineFreeText(s: string) {
    forall i :: 0 <= i < |s| ==> s[i] != '\n'
  }

  lemma SoonTitleNewlineFree()
    ensures '\n' !in SoonTitle
  {
    assert NewlineFreeText("Certificates of ");
    assert NewlineFreeText("following hosts ");
    assert NewlineFreeText("expires soon:");
    assert SoonTitle == "Certificates of " + "following hosts " + "expires soon:";
  }

  lemma OthersTitleNewlineFree()
    ensures '\n' !in OthersTitle
  {
    assert NewlineFreeText("Others have ");
    assert NewlineFreeText("enough time ");
    assert NewlineFreeText("to be expired:");
    assert OthersTitle == "Others have " + "enough time " + "to be expired:";
  }

  /** Read back line by line, a body gives exactly its lines. */
  lemma ReadBack(soonOrder: seq<Host>, othersOrder: seq<Host>,
                 soon: map<Host, Time>, others: map<Host, Time>, format: Time -> string)
    requires forall i :: 0 <= i < |soonOrder| ==> soonOrder[i] in soon
    requires forall i :: 0 <= i < |othersOrder| ==> othersOrder[i] in others
    requires NewlineFree(soon, format) && NewlineFree(others, format)
    ensures Split(Render(soonOrder, othersOrder, soon, others, format), '\n')
         == BodyLines(soonOrder, othersOrder, soon, others, format)
  {
    RenderIsJoin(soonOrder, othersOrder, soon, others, format);
    var lines := BodyLines(soonOrder, othersOrder, soon, others, format);
    SoonTitleNewlineFree();
    OthersTitleNewlineFree();
    forall i | 0 <= i < |lines| ensures '\n' !in lines[i] {
      var n := |soonOrder|;
      if 1 <= i < 1 + n {
        assert lines[i] == Entry(soonOrder[i - 1], soon[soonOrder[i - 1]], format);
      } else if |others| > 0 && 3 + n <= i < |lines| - 1 {
        assert lines[i] == Entry(othersOrder[i - 3 - n], others[othersOrder[i - 3 - n]], format);
      }
    }
    SplitJoin(lines, '\n');
  }

  /**
   * What a reader of any body `mailBody` produces finds, line by line: the
   * soon title, one entry per `soon` host in some order, then (only when
   * `others` is not empty) a blank line, the others title and one entry per
   * `others` host, and nothing after the final newline.
   */
  lemma MailBodyShape(body: string, exMap: map<Host, Time>, threshold: Time, format: Time -> string)
    requires IsMailBody(body, exMap, threshold, format)
    requires NewlineFree(exMap, format)
    ensures exists soonOrder: seq<Host>, othersOrder: seq<Host> ::
      && IsEnumeration(soonOrder, Soon(exMap, threshold).Keys)
      && IsEnumeration(othersOrder, Others(exMap, threshold).Keys)
      && Split(body, '\n') == [SoonTitle] + Entries(soonOrder, Soon(exMap, threshold), format)
                                          + OtherLines(othersOrder, Others(exMap, threshold), format)
    ensures |Split(body, '\n')| ==
      2 + |Soon(exMap, threshold)| + (if |Others(exMap, threshold)| > 0 then 2 + |Others(exMap, threshold)| else 0)
  {
    var soon, others := Soon(exMap, threshold), Others(exMap, threshold);
    var soonOrder, othersOrder :|
      && IsEnumeration(soonOrder, soon.Keys)
      && IsEnumeration(othersOrder, others.Keys)
      && body == Render(soonOrder, othersOrder, soon, others, format);
    ReadBack(soonOrder, othersOrder, soon, others, format);
    assert |soon.Keys| == |soon| && |others.Keys| == |others|;
  }
}
