/**
 * `SkeletonSerializer`: the one-line text form of a function's skeleton,
 *
 *   [nparams];[ctrl_1]...[ctrl_N];rel_1...rel_N;[calls_1]...[calls_N]
 *
 * together with a reader for that text, which recovers everything the text
 * carries: the parameter count when it was written, and per block the
 * control-flow tag, the relations and the number of calls.
 */
module Serializer {
  import opened Outcomes
  import opened Text
  import opened Blocks
  import opened Functions

  // ---------------------------------------------------------------------
  // Pieces of the text

  /** `f'{ctrlflow}'`: the statement's class name, or `None` for a block without one. */
  function CtrlText(c: Option<Ctrl>): (t: string)
    ensures ReadCtrl(t) == Some(c)
    ensures forall i :: 0 <= i < |t| ==> IsLetter(t[i])
  {
    match c
    case None => "None"
    case Some(k) => CtrlName(k)
  }

  predicate IsLetter(ch: char)
  {
    'A' <= ch <= 'Z' || 'a' <= ch <= 'z'
  }

  function ReadCtrl(t: string): Option<Option<Ctrl>>
  {
    if t == "None" then Some(None)
    else if t == "If" then Some(Some(If))
    else if t == "For" then Some(Some(For))
    else if t == "While" then Some(Some(While))
    else if t == "Return" then Some(Some(Return))
    else None
  }

  function Bracket(g: string): string
  {
    "[" + g + "]"
  }

  /** Every group in brackets, one after the other. */
  function Bracketed(gs: seq<string>): string
  {
    if |gs| == 0 then "" else Bracket(gs[0]) + Bracketed(gs[1..])
  }

  /** The items of `str(xs)` for a list of integers: `a, b, c`. */
  function ReprItems(xs: seq<int>): string
  {
    if |xs| == 0 then ""
    else if |xs| == 1 then IntToString(xs[0])
    else IntToString(xs[0]) + ", " + ReprItems(xs[1..])
  }

  /** `str(relations).replace(' ', '')`. */
  function RelationText(rel: seq<int>): string
  {
    RemoveAll("[" + ReprItems(rel) + "]", " ")
  }

  function IntTexts(xs: seq<int>): (ts: seq<string>)
    ensures |ts| == |xs| && forall i :: 0 <= i < |xs| ==> ts[i] == IntToString(xs[i])
  {
    seq(|xs|, i requires 0 <= i < |xs| => IntToString(xs[i]))
  }

  /** The prefix `[nparams];`, written only when `nparams` is truthy: given and non-zero. */
  function ParamsText(nparams: Option<int>): string
  {
    match nparams
    case Some(n) => if n != 0 then Bracket(IntToString(n)) + ";" else ""
    case None => ""
  }

  function TagsText(bs: seq<BlockDict>): string
  {
    if |bs| == 0 then "" else Bracket(CtrlText(bs[0].controlFlow)) + TagsText(bs[1..])
  }

  function RelationsText(bs: seq<BlockDict>): string
  {
    if |bs| == 0 then "" else RelationText(bs[0].relations) + RelationsText(bs[1..])
  }

  function CallsText(bs: seq<BlockDict>): string
  {
    if |bs| == 0 then "" else Bracket(NatToString(bs[0].nCalls)) + CallsText(bs[1..])
  }

  /** `SkeletonSerializer.serialize_function`. */
  function SerializeFunction(f: FunctionDict, nparams: Option<int>): string
  {
    ParamsText(nparams) + TagsText(f.blocks) + ";" + RelationsText(f.blocks) + ";" + CallsText(f.blocks)
  }

  /**
   * `SkeletonSerializer.serialize_functions`: with a non-empty list of
   * parameter counts the two lists are zipped, so the shorter one decides
   * the length; otherwise every function is written without a count.
   */
  function SerializeFunctions(fs: seq<FunctionDict>, nparams: Option<seq<int>>): (r: seq<string>)
    ensures nparams.Some? && |nparams.value| > 0 ==>
      |r| == (if |fs| <= |nparams.value| then |fs| else |nparams.value|)
    ensures !(nparams.Some? && |nparams.value| > 0) ==> |r| == |fs|
  {
    match nparams
    case Some(ps) =>
      if |ps| > 0 then
        var n := if |fs| <= |ps| then |fs| else |ps|;
        seq(n, i requires 0 <= i < n => SerializeFunction(fs[i], Some(ps[i])))
      else seq(|fs|, i requires 0 <= i < |fs| => SerializeFunction(fs[i], None))
    case None => seq(|fs|, i requires 0 <= i < |fs| => SerializeFunction(fs[i], None))
  }

  // ---------------------------------------------------------------------
  // Reading the text back

  /** What the text keeps of a function: everything but its names. */
  datatype Skeleton = Skeleton(nparams: Option<int>, controlFlow: seq<Option<Ctrl>>, relations: seq<seq<int>>, nCalls: seq<nat>)

  /** The parameter count as the text records it: only a truthy one is written. */
  function WrittenParams(nparams: Option<int>): Option<int>
  {
    if nparams.Some? && nparams.value != 0 then nparams else None
  }

  function SkeletonOf(f: FunctionDict, nparams: Option<int>): Skeleton
  {
    Skeleton(WrittenParams(nparams), CtrlFlows(f.blocks), RelationLists(f.blocks), CallCounts(f.blocks))
  }

  /** Reads every item with `read`; `None` as soon as one item is unreadable. */
  function ReadAll<A, B>(xs: seq<A>, read: A -> Option<B>): (r: Option<seq<B>>)
    ensures r.Some? ==> |r.value| == |xs|
  {
    if |xs| == 0 then Some([])
    else
      match read(xs[0])
      case None => None
      case Some(y) =>
        match ReadAll(xs[1..], read)
        case None => None
        case Some(ys) => Some([y] + ys)
  }

  /** Pieces that each start with `[`, with that bracket dropped. */
  function Opened(pieces: seq<string>): Option<seq<string>>
  {
    if |pieces| == 0 then Some([])
    else if |pieces[0]| == 0 || pieces[0][0] != '[' then None
    else
      match Opened(pieces[1..])
      case None => None
      case Some(gs) => Some([pieces[0][1..]] + gs)
  }

  /** The groups of a run of bracketed groups. */
  function ReadGroups(s: string): Option<seq<string>>
  {
    var pieces := Split(s, ']');
    if pieces[|pieces| - 1] != "" then None else Opened(pieces[..|pieces| - 1])
  }

  function ReadRelation(g: string): Option<seq<int>>
  {
    if g == "" then Some([]) else ReadAll(Split(g, ','), ParseIntText)
  }

  /** The three sections that follow the optional prefix. */
  function ReadSections(nparams: Option<int>, tags: string, rels: string, calls: string): Option<Skeleton>
  {
    match ReadGroups(tags)
    case None => None
    case Some(tgs) =>
      match ReadAll(tgs, ReadCtrl)
      case None => None
      case Some(cs) =>
        match ReadGroups(rels)
        case None => None
        case Some(rgs) =>
          match ReadAll(rgs, ReadRelation)
          case None => None
          case Some(rs) =>
            match ReadGroups(calls)
            case None => None
            case Some(ngs) =>
              match ReadAll(ngs, ParseNatText)
              case None => None
              case Some(ns) => Some(Skeleton(nparams, cs, rs, ns))
  }

  /** Reads a serialized skeleton; `None` for text outside the grammar. */
  function Deserialize(s: string): Option<Skeleton>
  {
    var parts := Split(s, ';');
    if |parts| == 3 then ReadSections(None, parts[0], parts[1], parts[2])
    else if |parts| == 4 then
      match ReadGroups(parts[0])
      case None => None
      case Some(pgs) =>
        if |pgs| != 1 then None
        else
          match ParseIntText(pgs[0])
          case None => None
          case Some(n) => if n == 0 then None else ReadSections(Some(n), parts[1], parts[2], parts[3])
    else None
  }

  // ---------------------------------------------------------------------
  // The round trip

  lemma {:induction false} ReadAllEach<A, B>(xs: seq<A>, read: A -> Option<B>, ys: seq<B>)
    requires |xs| == |ys| && forall i :: 0 <= i < |xs| ==> read(xs[i]) == Some(ys[i])
    ensures ReadAll(xs, read) == Some(ys)
  {
    if |xs| > 0 {
      ReadAllEach(xs[1..], read, ys[1..]);
      assert [ys[0]] + ys[1..] == ys;
    }
  }

  function Opens(gs: seq<string>): (ps: seq<string>)
    ensures |ps| == |gs| && forall i :: 0 <= i < |gs| ==> ps[i] == "[" + gs[i]
  {
    seq(|gs|, i requires 0 <= i < |gs| => "[" + gs[i])
  }

  lemma {:induction false} BracketedTerminated(gs: seq<string>)
    ensures Bracketed(gs) == Terminated(Opens(gs), ']')
  {
    if |gs| > 0 {
      BracketedTerminated(gs[1..]);
      assert Opens(gs)[1..] == Opens(gs[1..]);
    }
  }

  lemma {:induction false} OpenedOpens(gs: seq<string>)
    ensures Opened(Opens(gs)) == Some(gs)
  {
    if |gs| > 0 {
      OpenedOpens(gs[1..]);
      assert Opens(gs)[1..] == Opens(gs[1..]);
      assert ("[" + gs[0])[1..] == gs[0];
      assert [gs[0]] + gs[1..] == gs;
    }
  }

  /** Bracketed groups without a closing bracket inside are read back as they were. */
  lemma ReadGroupsBracketed(gs: seq<string>)
    requires forall i :: 0 <= i < |gs| ==> ']' !in gs[i]
    ensures ReadGroups(Bracketed(gs)) == Some(gs)
  {
    var ps := Opens(gs);
    forall i | 0 <= i < |ps| ensures ']' !in ps[i] {
      assert ps[i] == "[" + gs[i];
    }
    BracketedTerminated(gs);
    TerminatedSplit(ps, ']');
    assert (ps + [""])[..|ps|] == ps;
    OpenedOpens(gs);
  }

  /** A character that is not a bracket and occurs in no group does not occur in the run. */
  lemma {:induction false} BracketedLacks(gs: seq<string>, c: char)
    requires c != '[' && c != ']'
    requires forall i :: 0 <= i < |gs| ==> c !in gs[i]
    ensures c !in Bracketed(gs)
  {
    if |gs| > 0 {
      BracketedLacks(gs[1..], c);
    }
  }

  function Tags(bs: seq<BlockDict>): (ts: seq<string>)
    ensures |ts| == |bs| && forall i :: 0 <= i < |bs| ==> ts[i] == CtrlText(bs[i].controlFlow)
  {
    seq(|bs|, i requires 0 <= i < |bs| => CtrlText(bs[i].controlFlow))
  }

  function Counts(bs: seq<BlockDict>): (ts: seq<string>)
    ensures |ts| == |bs| && forall i :: 0 <= i < |bs| ==> ts[i] == NatToString(bs[i].nCalls)
  {
    seq(|bs|, i requires 0 <= i < |bs| => NatToString(bs[i].nCalls))
  }

  function Relations(bs: seq<BlockDict>): (ts: seq<string>)
    ensures |ts| == |bs| && forall i :: 0 <= i < |bs| ==> ts[i] == Join(IntTexts(bs[i].relations), ',')
  {
    seq(|bs|, i requires 0 <= i < |bs| => Join(IntTexts(bs[i].relations), ','))
  }

  lemma {:induction false} TagsBracketed(bs: seq<BlockDict>)
    ensures TagsText(bs) == Bracketed(Tags(bs))
  {
    if |bs| > 0 {
      TagsBracketed(bs[1..]);
      assert Tags(bs)[1..] == Tags(bs[1..]);
    }
  }

  lemma {:induction false} CallsBracketed(bs: seq<BlockDict>)
    ensures CallsText(bs) == Bracketed(Counts(bs))
  {
    if |bs| > 0 {
      CallsBracketed(bs[1..]);
      assert Counts(bs)[1..] == Counts(bs[1..]);
    }
  }

  /** Removing the spaces after a space-free item drops the blank of its `, ` separator. */
  lemma CompactSeparator(t: string, rest: string)
    requires ' ' !in t
    ensures RemoveAll(t + ", " + rest, " ") == t + [','] + RemoveAll(rest, " ")
  {
    RemoveAllMissing(t, ' ');
    RemoveAllMissing(",", ' ');
    assert RemoveAll(" ", " ") == "";
    assert t + ", " + rest == t + ("," + (" " + rest));
    RemoveAllConcat(t, "," + (" " + rest), " ");
    RemoveAllConcat(",", " " + rest, " ");
    RemoveAllConcat(" ", rest, " ");
  }

  /** Removing the spaces from the list items leaves the items joined by bare commas. */
  lemma {:induction false} ReprItemsCompact(xs: seq<int>)
    ensures RemoveAll(ReprItems(xs), " ") == Join(IntTexts(xs), ',')
  {
    if |xs| > 0 {
      var t := IntToString(xs[0]);
      IntTextChars(xs[0], ' ');
      if |xs| == 1 {
        RemoveAllMissing(t, ' ');
      } else {
        ReprItemsCompact(xs[1..]);
        CompactSeparator(t, ReprItems(xs[1..]));
        assert IntTexts(xs)[1..] == IntTexts(xs[1..]);
      }
    }
  }

  /** `str(rel).replace(' ', '')` is the compact list literal `[a,b,c]`. */
  lemma RelationTextCompact(rel: seq<int>)
    ensures RelationText(rel) == Bracket(Join(IntTexts(rel), ','))
  {
    RemoveAllConcat("[", ReprItems(rel) + "]", " ");
    assert "[" + ReprItems(rel) + "]" == "[" + (ReprItems(rel) + "]");
    RemoveAllConcat(ReprItems(rel), "]", " ");
    RemoveAllMissing("[", ' ');
    RemoveAllMissing("]", ' ');
    ReprItemsCompact(rel);
  }

  lemma {:induction false} RelationsBracketed(bs: seq<BlockDict>)
    ensures RelationsText(bs) == Bracketed(Relations(bs))
  {
    if |bs| > 0 {
      RelationsBracketed(bs[1..]);
      RelationTextCompact(bs[0].relations);
      assert Relations(bs)[1..] == Relations(bs[1..]);
    }
  }

  /** A character that is neither a digit nor `-` does not occur in the joined integers. */
  lemma {:induction false} JoinedIntsLack(xs: seq<int>, sep: char, c: char)
    requires !IsDigit(c) && c != '-' && c != sep
    ensures c !in Join(IntTexts(xs), sep)
  {
    if |xs| == 1 {
      IntTextChars(xs[0], c);
    } else if |xs| > 1 {
      IntTextChars(xs[0], c);
      JoinedIntsLack(xs[1..], sep, c);
      assert IntTexts(xs)[1..] == IntTexts(xs[1..]);
    }
  }

  lemma ReadRelationRoundTrip(rel: seq<int>)
    ensures ReadRelation(Join(IntTexts(rel), ',')) == Some(rel)
  {
    var ts := IntTexts(rel);
    if |rel| > 0 {
      assert Join(ts, ',') != "" by {
        assert |IntToString(rel[0])| > 0;
        JoinNonEmpty(ts, ',');
      }
      forall k | 0 <= k < |ts| ensures ',' !in ts[k] {
        IntTextChars(rel[k], ',');
      }
      SplitJoin(ts, ',');
      forall k | 0 <= k < |ts| ensures ParseIntText(ts[k]) == Some(rel[k]) {
        IntTextRoundTrip(rel[k]);
      }
      ReadAllEach(ts, ParseIntText, rel);
    }
  }

  lemma {:induction false} JoinNonEmpty(ts: seq<string>, sep: char)
    requires |ts| > 0 && |ts[0]| > 0
    ensures |Join(ts, sep)| > 0
  {
  }

  function CtrlFlows(bs: seq<BlockDict>): (cs: seq<Option<Ctrl>>)
    ensures |cs| == |bs| && forall i :: 0 <= i < |bs| ==> cs[i] == bs[i].controlFlow
  {
    seq(|bs|, i requires 0 <= i < |bs| => bs[i].controlFlow)
  }

  function RelationLists(bs: seq<BlockDict>): (rs: seq<seq<int>>)
    ensures |rs| == |bs| && forall i :: 0 <= i < |bs| ==> rs[i] == bs[i].relations
  {
    seq(|bs|, i requires 0 <= i < |bs| => bs[i].relations)
  }

  function CallCounts(bs: seq<BlockDict>): (ns: seq<nat>)
    ensures |ns| == |bs| && forall i :: 0 <= i < |bs| ==> ns[i] == bs[i].nCalls
  {
    seq(|bs|, i requires 0 <= i < |bs| => bs[i].nCalls)
  }

  lemma TagsRoundTrip(bs: seq<BlockDict>)
    ensures ';' !in TagsText(bs)
    ensures ReadGroups(TagsText(bs)) == Some(Tags(bs))
    ensures ReadAll(Tags(bs), ReadCtrl) == Some(CtrlFlows(bs))
  {
    var tags := Tags(bs);
    forall i | 0 <= i < |bs| ensures ']' !in tags[i] && ';' !in tags[i] {
      assert forall j :: 0 <= j < |tags[i]| ==> IsLetter(tags[i][j]);
    }
    TagsBracketed(bs);
    BracketedLacks(tags, ';');
    ReadGroupsBracketed(tags);
    ReadAllEach(tags, ReadCtrl, CtrlFlows(bs));
  }

  lemma RelationsRoundTrip(bs: seq<BlockDict>)
    ensures ';' !in RelationsText(bs)
    ensures ReadGroups(RelationsText(bs)) == Some(Relations(bs))
    ensures ReadAll(Relations(bs), ReadRelation) == Some(RelationLists(bs))
  {
    var rels := Relations(bs);
    forall i | 0 <= i < |bs| ensures ']' !in rels[i] && ';' !in rels[i] {
      JoinedIntsLack(bs[i].relations, ',', ']');
      JoinedIntsLack(bs[i].relations, ',', ';');
    }
    RelationsBracketed(bs);
    BracketedLacks(rels, ';');
    ReadGroupsBracketed(rels);
    forall i | 0 <= i < |rels| ensures ReadRelation(rels[i]) == Some(RelationLists(bs)[i]) {
      ReadRelationRoundTrip(bs[i].relations);
    }
    ReadAllEach(rels, ReadRelation, RelationLists(bs));
  }

  lemma CallsRoundTrip(bs: seq<BlockDict>)
    ensures ';' !in CallsText(bs)
    ensures ReadGroups(CallsText(bs)) == Some(Counts(bs))
    ensures ReadAll(Counts(bs), ParseNatText) == Some(CallCounts(bs))
  {
    var counts := Counts(bs);
    forall i | 0 <= i < |bs| ensures ']' !in counts[i] && ';' !in counts[i] {
      IntTextChars(bs[i].nCalls, ']');
      IntTextChars(bs[i].nCalls, ';');
    }
    CallsBracketed(bs);
    BracketedLacks(counts, ';');
    ReadGroupsBracketed(counts);
    forall i | 0 <= i < |counts| ensures ParseNatText(counts[i]) == Some(CallCounts(bs)[i]) {
      NatTextRoundTrip(bs[i].nCalls);
    }
    ReadAllEach(counts, ParseNatText, CallCounts(bs));
  }

  /** The three sections hold no `;` and read back as the blocks' fields. */
  lemma SectionsRoundTrip(f: FunctionDict, nparams: Option<int>)
    ensures ';' !in TagsText(f.blocks) && ';' !in RelationsText(f.blocks) && ';' !in CallsText(f.blocks)
    ensures ReadSections(WrittenParams(nparams), TagsText(f.blocks), RelationsText(f.blocks), CallsText(f.blocks))
      == Some(SkeletonOf(f, nparams))
  {
    TagsRoundTrip(f.blocks);
    RelationsRoundTrip(f.blocks);
    CallsRoundTrip(f.blocks);
    ReadSectionsOk(WrittenParams(nparams), TagsText(f.blocks), RelationsText(f.blocks), CallsText(f.blocks),
      Tags(f.blocks), CtrlFlows(f.blocks), Relations(f.blocks), RelationLists(f.blocks), Counts(f.blocks), CallCounts(f.blocks));
  }

  /** Three sections that each read back give the skeleton made of what they read. */
  lemma ReadSectionsOk(nparams: Option<int>, tags: string, rels: string, calls: string,
                       tgs: seq<string>, cs: seq<Option<Ctrl>>, rgs: seq<string>, rs: seq<seq<int>>, ngs: seq<string>, ns: seq<nat>)
    requires ReadGroups(tags) == Some(tgs) && ReadAll(tgs, ReadCtrl) == Some(cs)
    requires ReadGroups(rels) == Some(rgs) && ReadAll(rgs, ReadRelation) == Some(rs)
    requires ReadGroups(calls) == Some(ngs) && ReadAll(ngs, ParseNatText) == Some(ns)
    ensures ReadSections(nparams, tags, rels, calls) == Some(Skeleton(nparams, cs, rs, ns))
  {
  }

  /**
   * Reading a serialized function gives back its skeleton: the parameter
   * count exactly when a truthy one was given, and each block's control-flow
   * tag, relations and call count, in block order.
   */
  lemma SerializeRoundTrip(f: FunctionDict, nparams: Option<int>)
    ensures Deserialize(SerializeFunction(f, nparams)) == Some(SkeletonOf(f, nparams))
  {
    SectionsRoundTrip(f, nparams);
    SplitSerialized(f, nparams);
    if WrittenParams(nparams).Some? {
      PrefixRoundTrip(nparams.value);
    }
  }

  /** The prefix reads back as the one group holding the count. */
  lemma PrefixRoundTrip(n: int)
    ensures ';' !in Bracket(IntToString(n))
    ensures ReadGroups(Bracket(IntToString(n))) == Some([IntToString(n)])
    ensures ParseIntText(IntToString(n)) == Some(n)
  {
    IntTextChars(n, ';');
    IntTextChars(n, ']');
    assert Bracketed([IntToString(n)]) == Bracket(IntToString(n));
    ReadGroupsBracketed([IntToString(n)]);
    IntTextRoundTrip(n);
  }

  lemma NoSeparators(bs: seq<BlockDict>)
    ensures ';' !in TagsText(bs) && ';' !in RelationsText(bs) && ';' !in CallsText(bs)
  {
    TagsRoundTrip(bs);
    RelationsRoundTrip(bs);
    CallsRoundTrip(bs);
  }

  /** Cutting the text at `;` gives the prefix's group, if written, and the three sections. */
  lemma SplitSerialized(f: FunctionDict, nparams: Option<int>)
    ensures WrittenParams(nparams).Some? ==>
      Split(SerializeFunction(f, nparams), ';')
        == [Bracket(IntToString(nparams.value)), TagsText(f.blocks), RelationsText(f.blocks), CallsText(f.blocks)]
    ensures WrittenParams(nparams).None? ==>
      Split(SerializeFunction(f, nparams), ';') == [TagsText(f.blocks), RelationsText(f.blocks), CallsText(f.blocks)]
  {
    NoSeparators(f.blocks);
    if WrittenParams(nparams).Some? {
      PrefixRoundTrip(nparams.value);
      SerializedWithPrefix(f, nparams);
    } else {
      SerializedWithoutPrefix(f, nparams);
    }
  }

  lemma SerializedWithPrefix(f: FunctionDict, nparams: Option<int>)
    requires WrittenParams(nparams).Some?
    requires ';' !in Bracket(IntToString(nparams.value))
    requires ';' !in TagsText(f.blocks) && ';' !in RelationsText(f.blocks) && ';' !in CallsText(f.blocks)
    ensures Split(SerializeFunction(f, nparams), ';')
      == [Bracket(IntToString(nparams.value)), TagsText(f.blocks), RelationsText(f.blocks), CallsText(f.blocks)]
  {
    var p, t, r, c := Bracket(IntToString(nparams.value)), TagsText(f.blocks), RelationsText(f.blocks), CallsText(f.blocks);
    var s := SerializeFunction(f, nparams);
    assert s == p + ";" + t + ";" + r + ";" + c;
    SplitFour(p, t, r, c);
  }

  lemma SerializedWithoutPrefix(f: FunctionDict, nparams: Option<int>)
    requires WrittenParams(nparams).None?
    requires ';' !in TagsText(f.blocks) && ';' !in RelationsText(f.blocks) && ';' !in CallsText(f.blocks)
    ensures Split(SerializeFunction(f, nparams), ';') == [TagsText(f.blocks), RelationsText(f.blocks), CallsText(f.blocks)]
  {
    var t, r, c := TagsText(f.blocks), RelationsText(f.blocks), CallsText(f.blocks);
    NoParamsText(f, nparams);
    SplitThree(t, r, c);
  }

  /** Without a written count the text is the three sections alone. */
  lemma NoParamsText(f: FunctionDict, nparams: Option<int>)
    requires WrittenParams(nparams).None?
    ensures SerializeFunction(f, nparams) == TagsText(f.blocks) + ";" + RelationsText(f.blocks) + ";" + CallsText(f.blocks)
  {
    assert ParamsText(nparams) == [];
  }

  lemma SplitThree(t: string, r: string, c: string)
    requires ';' !in t && ';' !in r && ';' !in c
    ensures Split(t + ";" + r + ";" + c, ';') == [t, r, c]
  {
    ThreeSections(t, r, c);
    SplitJoin([t, r, c], ';');
  }

  lemma SplitFour(p: string, t: string, r: string, c: string)
    requires ';' !in p && ';' !in t && ';' !in r && ';' !in c
    ensures Split(p + ";" + t + ";" + r + ";" + c, ';') == [p, t, r, c]
  {
    ThreeSections(t, r, c);
    FourSections(p, t, r, c);
    assert p + ";" + t + ";" + r + ";" + c == p + ";" + (t + ";" + r + ";" + c);
    SplitJoin([p, t, r, c], ';');
  }

  lemma ThreeSections(t: string, r: string, c: string)
    ensures Join([t, r, c], ';') == t + ";" + r + ";" + c
  {
    assert [t, r, c][1..] == [r, c];
    assert [r, c][1..] == [c];
    assert Join([c], ';') == c;
    assert Join([r, c], ';') == r + [';'] + c;
    assert Join([t, r, c], ';') == t + [';'] + (r + [';'] + c);
  }

  lemma FourSections(p: string, t: string, r: string, c: string)
    ensures Join([p, t, r, c], ';') == p + ";" + Join([t, r, c], ';')
  {
    assert [p, t, r, c][1..] == [t, r, c];
  }

  /** Every string of the batch reads back as the matching function's skeleton. */
  lemma SerializeFunctionsRoundTrip(fs: seq<FunctionDict>, nparams: Option<seq<int>>, i: nat)
    requires i < |SerializeFunctions(fs, nparams)|
    ensures nparams.Some? && |nparams.value| > 0 ==>
      Deserialize(SerializeFunctions(fs, nparams)[i]) == Some(SkeletonOf(fs[i], Some(nparams.value[i])))
    ensures !(nparams.Some? && |nparams.value| > 0) ==>
      Deserialize(SerializeFunctions(fs, nparams)[i]) == Some(SkeletonOf(fs[i], None))
  {
    if nparams.Some? && |nparams.value| > 0 {
      SerializeRoundTrip(fs[i], Some(nparams.value[i]));
    } else {
      SerializeRoundTrip(fs[i], None);
    }
  }

  /** The text has two `;` separators, three when a parameter count is written. */
  lemma SectionCount(f: FunctionDict, nparams: Option<int>)
    ensures |Split(SerializeFunction(f, nparams), ';')| == if WrittenParams(nparams).Some? then 4 else 3
  {
    SerializeRoundTrip(f, nparams);
  }

  /** A function without blocks is written as the two separators alone. */
  lemma EmptyFunctionText(f: FunctionDict, nparams: Option<int>)
    requires |f.blocks| == 0 && WrittenParams(nparams).None?
    ensures SerializeFunction(f, nparams) == ";;"
  {
    NoParamsText(f, nparams);
  }

  function ExampleBlocks(): seq<BlockDict>
  {
    [BlockDict(0, Some(If), [1, 2], 1), BlockDict(1, None, [], 0), BlockDict(2, Some(Return), [], 2)]
  }

  /** A three-block function with two parameters. */
  lemma SerializeExample()
    ensures SerializeFunction(FunctionDict("f", None, ExampleBlocks()), Some(2))
      == "[2];[If][None][Return];[1,2][][];[1][0][2]"
  {
    var bs := ExampleBlocks();
    assert ParamsText(Some(2)) == "[2];" by {
      assert IntToString(2) == "2";
    }
    ExampleTags(bs);
    ExampleRelations(bs);
    ExampleCalls(bs);
    LiteralConcat();
  }

  lemma LiteralConcat()
    ensures "[2];" + "[If][None][Return]" + ";" + "[1,2][][]" + ";" + "[1][0][2]"
      == "[2];[If][None][Return];[1,2][][];[1][0][2]"
  {
  }

  lemma ExampleTags(bs: seq<BlockDict>)
    requires bs == ExampleBlocks()
    ensures TagsText(bs) == "[If][None][Return]"
  {
    assert TagsText(bs[3..]) == "";
    assert TagsText(bs[2..]) == Bracket(CtrlText(Some(Return))) + TagsText(bs[3..]);
    assert TagsText(bs[1..]) == Bracket(CtrlText(None)) + TagsText(bs[2..]);
    assert TagsText(bs) == Bracket(CtrlText(Some(If))) + TagsText(bs[1..]);
  }

  lemma ExampleRelations(bs: seq<BlockDict>)
    requires bs == ExampleBlocks()
    ensures RelationsText(bs) == "[1,2][][]"
  {
    RelationTextCompact([1, 2]);
    RelationTextCompact([]);
    assert Join(IntTexts([1, 2]), ',') == "1,2" by {
      assert IntTexts([1, 2]) == ["1", "2"];
    }
    assert RelationText([]) == "[]";
    assert RelationText([1, 2]) == "[1,2]";
    assert RelationsText(bs[2..]) == "[]";
    assert RelationsText(bs[1..]) == "[]" + RelationsText(bs[2..]);
  }

  lemma ExampleCalls(bs: seq<BlockDict>)
    requires bs == ExampleBlocks()
    ensures CallsText(bs) == "[1][0][2]"
  {
    assert NatToString(0) == "0" && NatToString(1) == "1" && NatToString(2) == "2";
    assert CallsText(bs[2..]) == "[2]";
    assert CallsText(bs[1..]) == "[0]" + CallsText(bs[2..]);
  }
}
