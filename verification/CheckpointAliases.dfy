/** The alias table after a restore: what a merge adds, and what each name then means. */
module CheckpointAliases {
  import opened Text
  import opened Checkpoint
  import opened CheckpointRoundTrip

  /** The value of the first alias of that name. */
  function AliasValue(name: string, aliases: seq<Alias>): Option<string> {
    if aliases == [] then None
    else if aliases[0].name == name then Some(aliases[0].value)
    else AliasValue(name, aliases[1..])
  }

  predicate Names(aliases: seq<Alias>, name: string) {
    AliasValue(name, aliases).Some?
  }

  predicate NoName(aliases: seq<Alias>, name: string) {
    forall k | 0 <= k < |aliases| :: aliases[k].name != name
  }

  predicate OneEach(aliases: seq<Alias>) {
    forall j, k | 0 <= j < k < |aliases| :: aliases[j].name != aliases[k].name
  }

  /** The restored aliases whose name is neither in the table nor earlier in the list. */
  function NewNames(aliases: seq<Alias>, restored: seq<Alias>): (r: seq<Alias>)
    ensures |r| <= |restored|
  {
    if restored == [] then []
    else
      var init, last := restored[..|restored| - 1], restored[|restored| - 1];
      NewNames(aliases, init) + if Names(aliases + init, last.name) then [] else [last]
  }

  function Room(aliases: seq<Alias>): nat {
    if |aliases| < 100 then 100 - |aliases| else 0
  }

  lemma {:induction false} AliasValueConcat(name: string, a: seq<Alias>, b: seq<Alias>)
    ensures AliasValue(name, a + b) ==
            if AliasValue(name, a).Some? then AliasValue(name, a) else AliasValue(name, b)
  {
    if a == [] {
      assert a + b == b;
    } else {
      assert (a + b)[1..] == a[1..] + b;
      AliasValueConcat(name, a[1..], b);
    }
  }

  lemma {:induction false} NamesIff(aliases: seq<Alias>, name: string)
    ensures Names(aliases, name) <==> !NoName(aliases, name)
  {
    if aliases != [] {
      NamesIff(aliases[1..], name);
      assert NoName(aliases, name) <==> aliases[0].name != name && NoName(aliases[1..], name);
    }
  }

  lemma DefinesIff(aliases: seq<Alias>, name: string)
    ensures Defines(aliases, name) <==> Names(aliases, name)
  {
    NamesIff(aliases, name);
    if !NoName(aliases, name) {
      var k :| 0 <= k < |aliases| && aliases[k].name == name;
      assert aliases[k] in aliases;
    }
  }

  /** The merge one restored alias at a time, from the end. */
  lemma {:induction false} MergeLast(aliases: seq<Alias>, restored: seq<Alias>, last: Alias)
    ensures var m := MergeAliases(aliases, restored);
            MergeAliases(aliases, restored + [last]) ==
            if !Defines(m, last.name) && |m| < MAX_ALIASES then m + [last] else m
    decreases restored
  {
    var all := restored + [last];
    if restored == [] {
      assert all[0] == last && all[1..] == [];
    } else {
      assert all[0] == restored[0] && all[1..] == restored[1..] + [last];
      hide Defines;
      if !Defines(aliases, restored[0].name) && |aliases| < MAX_ALIASES {
        MergeLast(aliases + [restored[0]], restored[1..], last);
      } else {
        MergeLast(aliases, restored[1..], last);
      }
    }
  }

  /** Exactly the first new names that fit are added, in order, behind what was there. */
  lemma {:induction false} MergeAppendsNew(aliases: seq<Alias>, restored: seq<Alias>)
    ensures MergeAliases(aliases, restored) == aliases + Take(NewNames(aliases, restored), Room(aliases))
    decreases restored
  {
    if restored == [] {
      assert aliases + [] == aliases;
    } else {
      var init, last := restored[..|restored| - 1], restored[|restored| - 1];
      assert restored == init + [last];
      var before := NewNames(aliases, init);
      hide MergeAliases, Defines, Names;
      MergeAppendsNew(aliases, init);
      MergeLast(aliases, init, last);
      var m := MergeAliases(aliases, init);
      DefinesIff(m, last.name);
      if |before| <= Room(aliases) {
        SameNames(aliases, init, last.name);
        assert m == aliases + before;
        assert aliases + before + [last] == aliases + (before + [last]);
        assert before + [] == before;
      } else {
        assert Take(NewNames(aliases, restored), Room(aliases)) == Take(before, Room(aliases));
      }
    }
  }

  /** Every name of the list is in the table or among the new names. */
  lemma {:induction false} SameNames(aliases: seq<Alias>, restored: seq<Alias>, name: string)
    ensures AliasValue(name, aliases + NewNames(aliases, restored)) == AliasValue(name, aliases + restored)
    decreases restored
  {
    if restored != [] {
      var init, last := restored[..|restored| - 1], restored[|restored| - 1];
      var new', more := NewNames(aliases, init), if Names(aliases + init, last.name) then [] else [last];
      assert restored == init + [last];
      assert aliases + NewNames(aliases, restored) == aliases + new' + more;
      assert aliases + restored == aliases + init + [last];
      SameNames(aliases, init, name);
      SameNames(aliases, init, last.name);
      AliasValueConcat(name, aliases + new', more);
      AliasValueConcat(name, aliases + init, [last]);
      AliasOfOne(name, last);
    }
  }

  lemma AliasOfOne(name: string, a: Alias)
    ensures AliasValue(name, [a]) == if a.name == name then Some(a.value) else None
    ensures AliasValue(name, []) == None
  {}

  /** The table keeps what it had in front, never grows beyond its size, and doubles no
      name unless it did before. */
  lemma MergeKeepsTable(aliases: seq<Alias>, restored: seq<Alias>)
    ensures var m := MergeAliases(aliases, restored);
            && aliases <= m
            && |m| <= (if |aliases| > 100 then |aliases| else 100)
            && (OneEach(aliases) ==> OneEach(m))
  {
    MergeAppendsNew(aliases, restored);
    if OneEach(aliases) {
      NewAreOneEach(aliases, restored);
      hide NewNames;
      var m := MergeAliases(aliases, restored);
      var all := aliases + NewNames(aliases, restored);
      forall j, k | 0 <= j < k < |m|
        ensures m[j].name != m[k].name
      {
        assert m[j] == all[j] && m[k] == all[k];
      }
    }
  }

  lemma {:induction false} NewAreOneEach(aliases: seq<Alias>, restored: seq<Alias>)
    requires OneEach(aliases)
    ensures OneEach(aliases + NewNames(aliases, restored))
    decreases restored
  {
    if restored == [] {
      assert aliases + [] == aliases;
    } else {
      var init, last := restored[..|restored| - 1], restored[|restored| - 1];
      var all := aliases + NewNames(aliases, init);
      NewAreOneEach(aliases, init);
      SameNames(aliases, init, last.name);
      NamesIff(all, last.name);
      if Names(aliases + init, last.name) {
        assert aliases + NewNames(aliases, restored) == all;
      } else {
        assert NoName(all, last.name);
        assert aliases + NewNames(aliases, restored) == all + [last];
      }
    }
  }

  /** What a name means after the merge: what it meant in the table, and otherwise what it
      means in the restored list. */
  predicate LooksUp(aliases: seq<Alias>, restored: seq<Alias>, name: string) {
    AliasValue(name, MergeAliases(aliases, restored)) ==
    if Names(aliases, name) then AliasValue(name, aliases) else AliasValue(name, restored)
  }

  /** Every name looks up so exactly when there is room for all the new names, and so
      whenever both lists fit the table together. */
  lemma MergeLooksUpIff(aliases: seq<Alias>, restored: seq<Alias>)
    ensures (forall name :: LooksUp(aliases, restored, name)) <==> |NewNames(aliases, restored)| <= Room(aliases)
    ensures |aliases| + |restored| <= 100 ==> |NewNames(aliases, restored)| <= Room(aliases)
  {
    var new' := NewNames(aliases, restored);
    MergeAppendsNew(aliases, restored);
    if |new'| <= Room(aliases) {
      forall name
        ensures LooksUp(aliases, restored, name)
      {
        SameNames(aliases, restored, name);
        AliasValueConcat(name, aliases, restored);
        hide NewNames, MergeAliases;
      }
    } else {
      LeftOutName(aliases, restored);
    }
  }

  /** The first new name that does not fit means nothing afterwards. */
  lemma LeftOutName(aliases: seq<Alias>, restored: seq<Alias>)
    requires |NewNames(aliases, restored)| > Room(aliases)
    ensures !LooksUp(aliases, restored, NewNames(aliases, restored)[Room(aliases)].name)
  {
    var new', k := NewNames(aliases, restored), Room(aliases);
    var name := new'[k].name;
    MergeAppendsNew(aliases, restored);
    NewIsNew(aliases, restored, k);
    SameNames(aliases, restored, name);
    hide NewNames, MergeAliases;
    AliasValueConcat(name, aliases, restored);
    AliasValueConcat(name, aliases, new');
    NamesIff(aliases, name);
    NamesIff(new', name);
    NamesIff(aliases + new'[..k], name);
  }

  lemma {:induction false} NewIsNew(aliases: seq<Alias>, restored: seq<Alias>, k: nat)
    requires k < |NewNames(aliases, restored)|
    ensures var new' := NewNames(aliases, restored); NoName(aliases + new'[..k], new'[k].name)
    decreases restored
  {
    var init, last := restored[..|restored| - 1], restored[|restored| - 1];
    var before := NewNames(aliases, init);
    if k < |before| {
      NewIsNew(aliases, init, k);
      assert NewNames(aliases, restored)[..k] == before[..k];
    } else {
      assert NewNames(aliases, restored)[..k] == before;
      SameNames(aliases, init, last.name);
      NamesIff(aliases + before, last.name);
    }
  }

  /** Restoring a written checkpoint into a table with room: an alias of the shell stays,
      and any other name means what it meant when the checkpoint was written. */
  lemma RestoredAliases(s: Snapshot, myPid: int, env: seq<string>, aliases: seq<Alias>, name: string)
    requires Savable(s) && Write(s).Some? && s.pid != myPid
    ensures var r := Restore(Write(s), myPid, env, aliases);
            var saved := Take(s.aliases, 256);
            && r.Applied? && aliases <= r.aliases
            && r.aliases == aliases + Take(NewNames(aliases, saved), Room(aliases))
            && (|NewNames(aliases, saved)| <= Room(aliases) ==>
                 AliasValue(name, r.aliases) ==
                 if Names(aliases, name) then AliasValue(name, aliases) else AliasValue(name, saved))
  {
    RestoreOfWrite(s, myPid, env, aliases);
    assert SavedFields(s).aliases == Take(s.aliases, 256);
    hide Savable, Write, Restore, SavedFields, NewNames, MergeAliases, MergeEnv;
    MergeAppendsNew(aliases, Take(s.aliases, 256));
    MergeLooksUpIff(aliases, Take(s.aliases, 256));
    assert |NewNames(aliases, Take(s.aliases, 256))| <= Room(aliases) ==> LooksUp(aliases, Take(s.aliases, 256), name);
  }
}
