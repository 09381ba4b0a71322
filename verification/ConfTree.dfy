/** The classes of src/conftree.h: a configuration file and a stack of them. */
module ConfTree {
  import opened Strings
  import opened ConfStore
  import opened ConfInvariants

  datatype Status = StatusError | ReadOnly | ReadWrite

  /** A configuration in memory: no backing file, so that write() without a stream only reports ok(). */
  class ConfSimple {
    var status: Status
    var submaps: Submaps
    var order: seq<ConfLine>

    ghost function View(): Store
      reads this
    {
      Store(submaps, order)
    }

    ghost predicate Valid()
      reads this
    {
      Sound(View())
    }

    constructor (data: string, readOnly: bool)
      ensures Valid() && View() == Parse(data)
      ensures status == if readOnly then ReadOnly else ReadWrite
    {
      status := if readOnly then ReadOnly else ReadWrite;
      submaps, order := map[], [];
      new;
      hide Run, Sound, WfEntries;
      ParseIsSound(data);
      ParseInput(data);
    }

    /** One pass over the input, line by line, until the end of file has been dealt with. */
    method ParseInput(text: string)
      requires SectionsListed(View())
      modifies this`submaps, this`order
      ensures SectionsListed(View())
      ensures View() == Run(Fresh(old(View())), text)
    {
      hide SectionsListed, Trim, RTrim, IndexOf, CommentedVar, Define, DefinesVar, Step, AtEof, Run;
      ghost var target := Run(Fresh(View()), text);
      var submapkey, line, rest := "", "", text;
      var appending, eof := false, false;
      while true
        invariant SectionsListed(View())
        invariant !eof ==> Run(ParseState(View(), submapkey, appending, line), rest) == target
        invariant eof ==> rest == "" && AtEof(ParseState(View(), submapkey, appending, line), "") == target
        decreases if eof then 0 else 1, |rest|, if appending then |line| else 0
      {
        ghost var p := ParseState(View(), submapkey, appending, line);
        var cline;
        if !eof { RunUnfolds(p, rest); }
        var e := IndexOf(rest, '\n');
        if e < |rest| {
          cline, rest := rest[..e], rest[e + 1..];
        } else {
          cline, rest, eof := rest, "", true;
        }
        ghost var raw := cline;
        if rest == "" && eof { AtEofUnfolds(p, raw); }
        StepUnfolds(p, raw, eof);
        ghost var next := Step(p, raw, eof);
        cline := RTrim(cline, "\n\r");
        if appending {
          line := line + cline;
        } else {
          line := cline;
          assert line == Carried(p) + cline;
        }
        line := Trim(line, BLANKS);
        assert line == Logical(p, raw);
        if line == "" || line[0] == '#' {
          if eof {
            break;
          }
          match CommentedVar(line, 0) {
            case Some(nm) => order := order + [VarComment(line, nm)];
            case None => order := order + [Comment(line)];
          }
          assert next.0 == ParseState(View(), submapkey, appending, line);
          continue;
        }
        if line[|line| - 1] == '\\' {
          line := line[..|line| - 1];
          appending := true;
          assert next.0 == ParseState(View(), submapkey, appending, line);
          continue;
        }
        appending := false;
        var defined;
        submapkey, defined := DefineLine(line, submapkey);
        if eof && defined {
          break;
        }
      }
    }

    /** The end of the loop body: a section header, a comment without an equal sign or without a name,
        or a variable. */
    method DefineLine(line: string, submapkey: string) returns (key: string, defined: bool)
      requires SectionsListed(View()) && line != ""
      modifies this`submaps, this`order
      ensures SectionsListed(View()) && defined == DefinesVar(line)
      ensures forall p: ParseState :: p.store == old(View()) && p.section == submapkey ==>
                Define(p, line) == ParseState(View(), key, false, line)
    {
      hide Trim, ConfStore.ISet;
      key := submapkey;
      if line[0] == '[' {
        key := Trim(line, "[] \t");
        order := order + [Section(key)];
        return key, false;
      }
      var eqpos := IndexOf(line, '=');
      if eqpos == |line| {
        order := order + [Comment(line)];
        return key, false;
      }
      var nm := Trim(line[..eqpos], BLANKS);
      var val := Trim(line[eqpos + 1..], BLANKS);
      if nm == "" {
        order := order + [Comment(line)];
        return key, false;
      }
      var _ := ISet(nm, val, key, true);
      return key, true;
    }

    /** Internal set. The section of a stored variable always has a line, so the search for it cannot
        fail. */
    method ISet(nm: string, value: string, sk: string, init: bool) returns (done: bool)
      requires SectionsListed(View())
      modifies this`submaps, this`order
      ensures SectionsListed(View())
      ensures View() == ConfStore.ISet(old(View()), nm, value, sk, init)
      ensures done == !HasLineBreak(value)
    {
      hide PlaceInZone, NextSection, FindSection, FindVar;
      if '\n' in value || '\r' in value {
        return false;
      }
      var existing := false;
      if sk !in submaps {
        submaps := submaps[sk := map[nm := value]];
        if sk != "" && FindSection(order, sk, 0) == |order| {
          order := order + [Section(sk)];
        }
      } else {
        existing := nm in submaps[sk];
        submaps := submaps[sk := submaps[sk][nm := value]];
      }
      assert submaps == Assign(old(submaps), nm, value, sk);
      assert order == WithSectionLine(old(View()), sk);
      if existing {
        return true;
      }
      if init {
        order := order + [Var(nm, value)];
        return true;
      }
      var start := 0;
      if sk != "" {
        start := FindSection(order, sk, 0);
        if start == |order| {
          assert false;
        } else {
          start := start + 1;
        }
      }
      PlaceInOrder(nm, start);
      return true;
    }

    /** Inserts a variable in the zone that starts at start, unless the zone has a line for it. */
    method PlaceInOrder(nm: string, start: nat)
      requires start <= |order|
      modifies this`order
      ensures order == PlaceInZone(old(order), nm, start, NextSection(old(order), start))
    {
      var fin := |order|;
      var it := start;
      while it < |order|
        invariant start <= it <= |order| && fin == |order|
        invariant NextSection(order, start) == NextSection(order, it)
      {
        if order[it].Section? {
          fin := it;
          break;
        }
        it := it + 1;
      }
      assert fin == NextSection(order, start);
      if FindVar(order, nm, start, fin) == fin {
        var inserted := false;
        it := start;
        while it < fin
          invariant start <= it <= fin <= |order| && order == old(order) && !inserted
          invariant FindVarComment(order, nm, start, fin) == FindVarComment(order, nm, it, fin)
        {
          if order[it].VarComment? && order[it].name == nm {
            it := it + 1;
            order := InsertAt(order, it, Var(nm, ""));
            inserted := true;
            break;
          }
          it := it + 1;
        }
        if !inserted {
          order := InsertAt(order, fin, Var(nm, ""));
        }
      }
    }

    method Get(nm: string, sk: string) returns (value: Option<string>)
      ensures value == if status == StatusError then None else Lookup(submaps, nm, sk)
    {
      if status == StatusError || sk !in submaps || nm !in submaps[sk] {
        return None;
      }
      return Some(submaps[sk][nm]);
    }

    /** set: refused on a store that is not writable, or for a value with a line break. */
    method Set(nm: string, value: string, sk: string) returns (done: bool)
      requires Valid()
      modifies this`submaps, this`order
      ensures Valid()
      ensures done == (status == ReadWrite && !HasLineBreak(value))
      ensures View() == if done then ConfStore.ISet(old(View()), nm, value, sk, false) else old(View())
      ensures done ==> submaps == Assign(old(submaps), nm, value, sk)
    {
      if status != ReadWrite {
        return false;
      }
      ISetKeepsSound(View(), nm, value, sk, false);
      done := ISet(nm, value, sk, false);
    }

    method Erase(nm: string, sk: string) returns (done: bool)
      requires Valid()
      modifies this`submaps
      ensures Valid()
      ensures done == (status == ReadWrite && sk in old(submaps))
      ensures View() == if status == ReadWrite then ConfStore.Erase(old(View()), nm, sk) else old(View())
      ensures status == ReadWrite ==> Lookup(submaps, nm, sk).None?
      ensures forall n, s :: (n, s) != (nm, sk) ==> Lookup(submaps, n, s) == Lookup(old(submaps), n, s)
    {
      if status != ReadWrite || sk !in submaps {
        return false;
      }
      EraseKeepsSound(View(), nm, sk);
      submaps := submaps[sk := submaps[sk] - {nm}];
      if submaps[sk] == map[] {
        submaps := submaps - {sk};
      }
      assert submaps == ConfStore.Erase(old(View()), nm, sk).submaps;
      return true;
    }

    /** eraseKey erases the names of the section one after the other. */
    method EraseKey(sk: string) returns (done: bool)
      requires Valid()
      modifies this`submaps
      ensures Valid()
      ensures done == (status != StatusError)
      ensures View() == if status == ReadWrite then ConfStore.EraseKey(old(View()), sk) else old(View())
    {
      hide Sound, ConfStore.Erase, ConfStore.EraseKey;
      StoredSectionsHaveNames(View());
      EraseKeyIs(View(), sk);
      var names := if status != StatusError && sk in submaps then submaps[sk].Keys else {};
      if names == {} {
        return status != StatusError;
      }
      while names != {}
        invariant Valid() && sk in old(submaps) && names <= old(submaps)[sk].Keys
        invariant status == ReadWrite ==>
          submaps - {sk} == old(submaps) - {sk} && order == old(order) &&
          (sk in submaps <==> names != {}) && (sk in submaps ==> submaps[sk].Keys == names)
        invariant status != ReadWrite ==> submaps == old(submaps)
        decreases |names|
      {
        var nm :| nm in names;
        if status == ReadWrite { ErasedName(View(), nm, sk); }
        var _ := Erase(nm, sk);
        names := names - {nm};
      }
      EraseKeyIs(View(), sk);
      return status != StatusError;
    }

    method Clear()
      modifies this`submaps, this`order
      ensures Valid() && View() == EMPTY
    {
      submaps, order := map[], [];
    }

    method Reparse(data: string)
      modifies this`submaps, this`order
      ensures Valid() && View() == Parse(data)
    {
      hide Run, WfEntries, Indexed, NoEmptySection;
      ParseIsSound(data);
      Clear();
      ParseInput(data);
    }

    /** write(ostream): comments as they are, sections that still exist, variables with their current
        value. */
    method WriteTo() returns (done: bool, out: string)
      ensures done == (status != StatusError)
      ensures out == if done then Write(View()) else ""
    {
      hide PrintVar;
      out := "";
      if status == StatusError {
        return false, "";
      }
      var sk := "";
      var i := 0;
      while i < |order|
        invariant i <= |order| && sk == SectionAt(order, i) && out == Written(View(), i)
      {
        match order[i] {
          case Comment(text) => out := out + (text + "\n");
          case VarComment(text, _) => out := out + (text + "\n");
          case Section(name) =>
            sk := name;
            if sk in submaps {
              out := out + ("[" + name + "]\n");
            }
          case Var(nm, _) =>
            var value := Get(nm, sk);
            if value.Some? {
              var line := VarPrinter(nm, value.value);
              out := out + line;
            }
        }
        i := i + 1;
      }
      return true, out;
    }
  }

  lemma StoredSectionsHaveNames(st: Store)
    requires Sound(st)
    ensures forall sk :: sk in st.submaps ==> st.submaps[sk].Keys != {}
  {
    forall sk | sk in st.submaps ensures st.submaps[sk].Keys != {} {
      var nm :| nm in st.submaps[sk];
    }
  }

  lemma EraseKeyIs(st: Store, sk: string)
    ensures ConfStore.EraseKey(st, sk) == st.(submaps := st.submaps - {sk})
    ensures sk !in st.submaps ==> st.submaps - {sk} == st.submaps
  {
  }

  lemma ErasedName(st: Store, nm: string, sk: string)
    requires sk in st.submaps && nm in st.submaps[sk]
    ensures var r := ConfStore.Erase(st, nm, sk);
      var names := st.submaps[sk].Keys - {nm};
      r.order == st.order && r.submaps - {sk} == st.submaps - {sk} &&
      (sk in r.submaps <==> names != {}) && (sk in r.submaps ==> r.submaps[sk].Keys == names)
  {
    var rest := st.submaps[sk] - {nm};
    assert rest.Keys == st.submaps[sk].Keys - {nm};
  }

  /** varprinter, appending to what is already out. */
  method VarPrinter(nm: string, value: string) returns (output: string)
    ensures output == PrintVar(nm, value)
  {
    if nm == "" {
      return "\n[" + value + "]\n";
    }
    output := nm + " = ";
    if |nm| + |value| < 75 {
      output := output + value;
    } else {
      var ll, pos := 0, 0;
      while pos < |value|
        invariant pos <= |value| && ll >= 0
        invariant output + Fold(value, pos, ll) == nm + " = " + Fold(value, 0, 0)
      {
        ghost var before := output;
        var c := value[pos];
        output := output + [c];
        ll := ll + 1;
        if ll > 50 && |value| - pos > 10 && (c == ' ' || c == '\t') {
          assert Fold(value, pos, ll - 1) == [c] + "\\\n" + Fold(value, pos + 1, 0);
          assert before + ([c] + "\\\n" + Fold(value, pos + 1, 0)) == (before + [c] + "\\\n") + Fold(value, pos + 1, 0);
          ll := 0;
          output := output + "\\\n";
        } else {
          assert Fold(value, pos, ll - 1) == [c] + Fold(value, pos + 1, ll);
          assert before + ([c] + Fold(value, pos + 1, ll)) == (before + [c]) + Fold(value, pos + 1, ll);
        }
        pos := pos + 1;
      }
      assert output + Fold(value, pos, ll) == output;
    }
    output := output + "\n";
  }

  // ----- A stack of configurations -----

  /** The value that a stack of maps shows: the first one from the top. */
  function Visible(layers: seq<Submaps>, nm: string, sk: string): Option<string> {
    if layers == [] then None
    else if Lookup(layers[0], nm, sk).Some? then Lookup(layers[0], nm, sk)
    else Visible(layers[1..], nm, sk)
  }

  /** Layer i shows its value if it has one and no layer above it has. */
  lemma {:induction false} FirstLayerShows(layers: seq<Submaps>, nm: string, sk: string, i: nat)
    requires i <= |layers| && forall j :: 0 <= j < i ==> Lookup(layers[j], nm, sk).None?
    requires i < |layers| ==> Lookup(layers[i], nm, sk).Some?
    ensures Visible(layers, nm, sk) == if i < |layers| then Lookup(layers[i], nm, sk) else None
  {
    hide Lookup;
    if i > 0 { FirstLayerShows(layers[1..], nm, sk, i - 1); }
  }

  /** The top file is the only one written to. */
  class ConfStack {
    const confs: seq<ConfSimple>

    ghost predicate Valid()
      reads this, confs
    {
      confs != [] && (forall i :: 0 <= i < |confs| ==> confs[i].Valid() && confs[i].status != StatusError) &&
      forall i, j :: 0 <= i < j < |confs| ==> confs[i] != confs[j]
    }

    ghost function Layers(): seq<Submaps>
      reads this, confs
    {
      seq(|confs|, i requires 0 <= i < |confs| reads confs => confs[i].submaps)
    }

    constructor (files: seq<ConfSimple>)
      requires files != [] && forall i :: 0 <= i < |files| ==> files[i].Valid() && files[i].status != StatusError
      requires forall i, j :: 0 <= i < j < |files| ==> files[i] != files[j]
      ensures confs == files && Valid()
    {
      confs := files;
    }

    method Get(nm: string, sk: string, shallow: bool) returns (value: Option<string>)
      requires Valid()
      ensures value == if shallow then Lookup(Layers()[0], nm, sk) else Visible(Layers(), nm, sk)
    {
      var i := 0;
      while i < |confs|
        invariant i <= |confs| && (shallow ==> i == 0)
        invariant Visible(Layers(), nm, sk) == Visible(Layers()[i..], nm, sk)
      {
        value := confs[i].Get(nm, sk);
        assert Layers()[i..][0] == confs[i].submaps && Layers()[i..][1..] == Layers()[i + 1..];
        if value.Some? || shallow {
          return;
        }
        i := i + 1;
      }
      return None;
    }

    /** What the files below the top give. */
    method Below(nm: string, sk: string) returns (value: Option<string>)
      requires Valid()
      ensures value == Visible(Layers()[1..], nm, sk)
    {
      hide Sound, Lookup;
      var i := 1;
      while i < |confs|
        invariant 1 <= i <= |confs|
        invariant Visible(Layers()[1..], nm, sk) == Visible(Layers()[i..], nm, sk)
      {
        value := confs[i].Get(nm, sk);
        assert Layers()[i..][0] == confs[i].submaps && Layers()[i..][1..] == Layers()[i + 1..];
        if value.Some? { return; }
        i := i + 1;
      }
      return None;
    }

    /** After a successful set on a writable top, the stack shows the value and every other visible
        value is what it was; and the top holds no copy of a value that the files below already give. */
    method Set(nm: string, val: string, sk: string) returns (done: bool)
      requires Valid()
      modifies confs[0]
      ensures Valid() && confs[0].status == old(confs[0].status)
      ensures Layers()[1..] == old(Layers())[1..]
      ensures confs[0].status == ReadWrite && !HasLineBreak(val) ==> done
      ensures done && confs[0].status == ReadWrite ==>
        Visible(Layers(), nm, sk) == Some(val) &&
        (forall n, s :: (n, s) != (nm, sk) ==> Visible(Layers(), n, s) == Visible(old(Layers()), n, s)) &&
        Lookup(Layers()[0], nm, sk) == (if Visible(Layers()[1..], nm, sk) == Some(val) then None else Some(val))
      ensures !(done && confs[0].status == ReadWrite) ==> Layers() == old(Layers())
    {
      hide Sound, ConfStore.ISet, Assign, Lookup;
      var value := Below(nm, sk);
      if value == Some(val) {
        var _ := confs[0].Erase(nm, sk);
        LayersSplit(old(Layers()), Layers(), nm, sk);
        return true;
      }
      done := confs[0].Set(nm, val, sk);
      LayersSplit(old(Layers()), Layers(), nm, sk);
    }

    method Erase(nm: string, sk: string) returns (done: bool)
      requires Valid()
      modifies confs[0]
      ensures Valid() && confs[0].status == old(confs[0].status) && Layers()[1..] == old(Layers())[1..]
      ensures confs[0].status == ReadWrite ==> Visible(Layers(), nm, sk) == Visible(old(Layers())[1..], nm, sk)
      ensures forall n, s :: (n, s) != (nm, sk) ==> Visible(Layers(), n, s) == Visible(old(Layers()), n, s)
    {
      done := confs[0].Erase(nm, sk);
      LayersSplit(old(Layers()), Layers(), nm, sk);
    }
  }

  /** Changing one entry of the top layer changes at most the visible value of that entry. */
  lemma LayersSplit(was: seq<Submaps>, now: seq<Submaps>, nm: string, sk: string)
    requires |was| == |now| > 0
    requires forall i :: 1 <= i < |was| ==> was[i] == now[i]
    ensures was[1..] == now[1..]
    ensures (forall n, s :: (n, s) != (nm, sk) ==> Lookup(now[0], n, s) == Lookup(was[0], n, s)) ==>
              forall n, s :: (n, s) != (nm, sk) ==> Visible(now, n, s) == Visible(was, n, s)
  {
    assert was[1..] == now[1..];
  }
}
