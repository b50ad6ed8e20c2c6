/**
 Stage 3 of the username migration (apps/central/migrations/001-username.ts): every account without
 a user name gets one.

 The rows are taken in the order given. An update may fail at any of them; the rows left then are for
 the next run of the migration, which starts from the names given so far.
 */
module UsernameBackfill {
  import opened Common
  import opened Usernames

  type AccountId = string

  datatype Row = Row(id: AccountId, email: string)

  datatype Outcome = Done | NoFreeName | Invalid | UpdateFailed

  /** No two accounts have the same name in lower case: what the unique index of stage 4 demands. */
  ghost predicate AllDiffer(names: map<AccountId, string>, lower: string -> string) {
    forall a, b :: a in names && b in names && lower(names[a]) == lower(names[b]) ==> a == b
  }

  /** Rows of different accounts, none of which has a name. */
  ghost predicate RowsFor(rows: seq<Row>, names: map<AccountId, string>) {
    if rows == [] then true
    else
      && rows[0].id !in names
      && (forall r :: r in rows[1..] ==> r.id != rows[0].id)
      && RowsFor(rows[1..], names)
  }

  lemma {:induction false} RowsAfter(rows: seq<Row>, names: map<AccountId, string>, id: AccountId, name: string)
    requires RowsFor(rows, names) && forall r :: r in rows ==> r.id != id
    ensures RowsFor(rows, names[id := name])
  {
    if rows != [] {
      assert rows[0] in rows;
      RowsAfter(rows[1..], names, id, name);
    }
  }

  /** The lower-case forms in use. */
  ghost predicate InUse(taken: set<string>, names: map<AccountId, string>, lower: string -> string) {
    forall s :: s in taken <==> exists id :: id in names && lower(names[id]) == s
  }

  ghost function UsedBy(names: map<AccountId, string>, lower: string -> string): set<string> {
    set id | id in names :: lower(names[id])
  }

  /** What is in use once the rows have their names. */
  ghost function UsedAfter(rows: seq<Row>, used: set<string>, names: map<AccountId, string>): set<string>
    requires forall r :: r in rows ==> r.id in names
  {
    if rows == [] then used
    else
      assert rows[|rows| - 1] in rows;
      UsedAfter(rows[..|rows| - 1], used, names) + {names[rows[|rows| - 1].id]}
  }

  type Choice = (Row, set<string>, string) -> bool

  /** The name of each row is a proper choice for the names in use when its turn came. */
  ghost predicate InTurn(rows: seq<Row>, used: set<string>, names: map<AccountId, string>, proper: Choice)
    requires forall r :: r in rows ==> r.id in names
  {
    if rows == [] then true
    else
      var before, row := rows[..|rows| - 1], rows[|rows| - 1];
      assert row in rows;
      InTurn(before, used, names, proper) && proper(row, UsedAfter(before, used, names), names[row.id])
  }

  /** The first candidate that is free. */
  ghost function First(lower: string -> string): Choice {
    (row: Row, used: set<string>, name: string) => FirstFree(Base(row.email, row.id, lower), used, name)
  }

  // More names make no difference to rows that have theirs.
  lemma {:induction false} StillInTurn(rows: seq<Row>, used: set<string>, names: map<AccountId, string>, names': map<AccountId, string>, proper: Choice)
    requires forall r :: r in rows ==> r.id in names && r.id in names' && names'[r.id] == names[r.id]
    ensures UsedAfter(rows, used, names') == UsedAfter(rows, used, names)
    ensures InTurn(rows, used, names', proper) == InTurn(rows, used, names, proper)
  {
    if rows != [] {
      assert rows[|rows| - 1] in rows;
      StillInTurn(rows[..|rows| - 1], used, names, names', proper);
    }
  }

  lemma OneMoreInTurn(before: seq<Row>, row: Row, used: set<string>, was: map<AccountId, string>, name: string, proper: Choice)
    requires forall r :: r in before ==> r.id in was && r.id != row.id
    requires InTurn(before, used, was, proper) && proper(row, UsedAfter(before, used, was), name)
    ensures InTurn(before + [row], used, was[row.id := name], proper)
    ensures UsedAfter(before + [row], used, was[row.id := name]) == UsedAfter(before, used, was) + {name}
  {
    var all, now := before + [row], was[row.id := name];
    assert all[..|all| - 1] == before && all[|all| - 1] == row;
    StillInTurn(before, used, was, now, proper);
    assert UsedAfter(all, used, now) == UsedAfter(before, used, now) + {now[row.id]};
    assert InTurn(all, used, now, proper) == (InTurn(before, used, now, proper) && proper(row, UsedAfter(before, used, now), now[row.id]));
  }

  /** The accounts that have a user name, by id. */
  class Accounts {
    var usernames: map<AccountId, string>
    var calls: nat
    const faults: nat -> bool

    constructor (usernames: map<AccountId, string>, faults: nat -> bool)
      ensures this.usernames == usernames && this.faults == faults
    {
      this.usernames, this.faults, calls := usernames, faults, 0;
    }

    /** None of the calls after number `from`, up to number `to`, fails. */
    ghost predicate NoFault(from: nat, to: nat) {
      forall i :: from < i <= to ==> !faults(i)
    }

    method Update(id: AccountId, username: string) returns (ok: bool)
      modifies this
      ensures usernames == if ok then old(usernames)[id := username] else old(usernames)
      ensures calls == old(calls) + 1 && (ok <==> !faults(calls))
    {
      calls := calls + 1;
      ok := !faults(calls);
      if ok {
        usernames := usernames[id := username];
      }
    }

    /** The names already in use, from the rows that have one. */
    method LoadTaken(lower: string -> string) returns (taken: Taken)
      ensures fresh(taken) && InUse(taken.names, usernames, lower) && |taken.names| <= |usernames|
    {
      taken := new Taken();
      var left := usernames.Keys;
      while left != {}
        invariant fresh(taken) && left <= usernames.Keys
        invariant forall s :: s in taken.names <==> exists id :: id in usernames && id !in left && lower(usernames[id]) == s
        invariant |taken.names| + |left| <= |usernames.Keys|
        decreases left
      {
        var id :| id in left;
        ghost var was := taken.names;
        taken.Add(lower(usernames[id]));
        left := left - {id};
        forall s ensures s in taken.names <==> exists k :: k in usernames && k !in left && lower(usernames[k]) == s {
          if s == lower(usernames[id]) {
            assert id in usernames && id !in left;
          }
        }
      }
    }

    // One row: the choice, the sanity check, the update.
    method Assign(row: Row, taken: Taken, lower: string -> string, ghost first: map<AccountId, string>) returns (r: Outcome)
      requires LowerCases(lower) && row.id !in usernames
      modifies this, taken
      ensures !r.Done? ==> usernames == old(usernames)
      ensures r.Done? ==> row.id in usernames && usernames == old(usernames)[row.id := usernames[row.id]]
      ensures Grown(first, old(usernames)) ==> Grown(first, usernames)
      ensures |taken.names| <= |old(taken.names)| + 1
      ensures IsUuid(row.id) ==> !r.Invalid? && (r.Done? && Kept(first, old(usernames), old(taken.names), lower) ==> Kept(first, usernames, taken.names, lower))
      ensures |old(taken.names)| < 9_998 ==> !r.NoFreeName?
      ensures r.NoFreeName? <==> AllTaken(Base(row.email, row.id, lower), old(taken.names))
      ensures r.UpdateFailed? ==> faults(calls)
      ensures r.Done? ==> calls == old(calls) + 1 && !faults(calls)
      ensures r.Done? && IsUuid(row.id) ==>
                && First(lower)(row, old(taken.names), usernames[row.id])
                && taken.names == old(taken.names) + {usernames[row.id]}
    {
      ghost var names, used := usernames, taken.names;
      var candidate := taken.PickUsername(row.email, row.id, lower);
      if candidate.None? {
        return NoFreeName;
      }
      CanonicalIff(candidate.value, lower);
      var validation := ValidateUsername(candidate.value, lower);
      if !validation.Ok? {
        return Invalid;
      }
      var ok := Update(row.id, validation.username);
      if !ok {
        return UpdateFailed;
      }
      AcceptedIsCanonical(candidate.value, lower);
      if IsUuid(row.id) {
        OneMore(names, used, row.id, candidate.value, lower, first);
      }
      return Done;
    }

    /** `rows` are the accounts without a name, by UUID. Each row done gets a name that validation
        accepts unchanged, and no two names collide; the rows left by a failure, as those of an
        interrupted run, are for the next one. */
    method Backfill(rows: seq<Row>, lower: string -> string) returns (r: Outcome)
      requires LowerCases(lower) && RowsFor(rows, usernames)
      modifies this
      ensures forall id :: id in old(usernames) ==> id in usernames && usernames[id] == old(usernames)[id]
      ensures forall id :: id in usernames && id !in old(usernames) ==>
                             ValidateUsername(usernames[id], lower) == Ok(usernames[id])
      ensures r.Done? ==> forall i :: 0 <= i < |rows| ==> rows[i].id in usernames
      ensures AllUuids(rows) ==> !r.Invalid? && (AllDiffer(old(usernames), lower) ==> AllDiffer(usernames, lower))
      ensures |old(usernames)| + |rows| <= 9_998 ==> !r.NoFreeName?
      ensures r.UpdateFailed? ==> faults(calls)
      ensures r.Done? ==> calls == old(calls) + |rows| && NoFault(old(calls), calls)
      ensures AllUuids(rows) ==> Answers(rows, UsedBy(old(usernames), lower), usernames, lower, r)
    {
      var taken := LoadTaken(lower);
      assert taken.names == UsedBy(usernames, lower);
      r := AssignAll(rows, taken, lower, usernames);
      AllValid(old(usernames), usernames, lower);
    }

    // The loop over the rows.
    method AssignAll(rows: seq<Row>, taken: Taken, lower: string -> string, ghost first: map<AccountId, string>) returns (r: Outcome)
      requires LowerCases(lower) && RowsFor(rows, usernames) && first == usernames
      modifies this, taken
      ensures Grown(first, usernames)
      ensures r.Done? ==> forall i :: 0 <= i < |rows| ==> rows[i].id in usernames
      ensures AllUuids(rows) ==> !r.Invalid?
      ensures AllUuids(rows) && Kept(first, first, old(taken.names), lower) && AllDiffer(first, lower) ==> AllDiffer(usernames, lower)
      ensures |old(taken.names)| + |rows| <= 9_998 ==> !r.NoFreeName?
      ensures r.UpdateFailed? ==> faults(calls)
      ensures r.Done? ==> calls == old(calls) + |rows| && NoFault(old(calls), calls)
      ensures AllUuids(rows) ==> Answers(rows, old(taken.names), usernames, lower, r)
    {
      assert rows[0..] == rows;
      for i := 0 to |rows|
        invariant Named(rows, i, first, old(taken.names), usernames, taken.names, lower)
        invariant calls == old(calls) + i && NoFault(old(calls), calls)
      {
        r := AssignNext(rows, i, taken, lower, first, old(taken.names));
        if !r.Done? {
          return;
        }
      }
      assert rows[..|rows|] == rows;
      return Done;
    }

    method AssignNext(rows: seq<Row>, i: nat, taken: Taken, lower: string -> string, ghost first: map<AccountId, string>, ghost used: set<string>)
      returns (r: Outcome)
      requires LowerCases(lower) && i < |rows| && Named(rows, i, first, used, usernames, taken.names, lower)
      modifies this, taken
      ensures r.Done? ==> Named(rows, i + 1, first, used, usernames, taken.names, lower)
      ensures !r.Done? ==> usernames == old(usernames)
      ensures |used| + |rows| <= 9_998 ==> !r.NoFreeName?
      ensures r.UpdateFailed? ==> faults(calls)
      ensures r.Done? ==> calls == old(calls) + 1 && !faults(calls)
      ensures AllUuids(rows) ==> !r.Invalid? && (r.NoFreeName? ==> StoppedAt(rows, i, used, usernames, lower))
    {
      ghost var was := usernames;
      assert rows[i..][0] == rows[i] && rows[i..][1..] == rows[i + 1..];
      r := Assign(rows[i], taken, lower, first);
      if r.Done? {
        RowsAfter(rows[i + 1..], was, rows[i].id, usernames[rows[i].id]);
        assert rows[..i + 1] == rows[..i] + [rows[i]];
        if AllUuids(rows) {
          OneMoreInTurn(rows[..i], rows[i], used, was, usernames[rows[i].id], First(lower));
        }
      }
    }
  }

  /** The first `i` rows have their names, chosen in turn. */
  ghost predicate Named(rows: seq<Row>, i: nat, first: map<AccountId, string>, used: set<string>, names: map<AccountId, string>, taken: set<string>,
                        lower: string -> string)
  {
    && i <= |rows| && |taken| <= |used| + i
    && Grown(first, names) && RowsFor(rows[i..], names)
    && (forall r :: r in rows[..i] ==> r.id in names)
    && (AllUuids(rows) && Kept(first, first, used, lower) ==> Kept(first, names, taken, lower))
    && (AllUuids(rows) ==> InTurn(rows[..i], used, names, First(lower)) && taken == UsedAfter(rows[..i], used, names))
  }

  /** Every row has its name, chosen in turn, or all candidates of one were taken when its turn came. */
  ghost predicate Answers(rows: seq<Row>, used: set<string>, names: map<AccountId, string>, lower: string -> string, r: Outcome) {
    && (r.Done? ==> (forall r :: r in rows ==> r.id in names) && InTurn(rows, used, names, First(lower)))
    && (r.NoFreeName? ==> exists i: nat :: StoppedAt(rows, i, used, names, lower))
  }

  ghost predicate StoppedAt(rows: seq<Row>, i: nat, used: set<string>, names: map<AccountId, string>, lower: string -> string) {
    && i < |rows| && (forall r :: r in rows[..i] ==> r.id in names)
    && AllTaken(Base(rows[i].email, rows[i].id, lower), UsedAfter(rows[..i], used, names))
  }

  // What is in use is known, and no two names collide unless two did before.
  ghost predicate Kept(first: map<AccountId, string>, names: map<AccountId, string>, used: set<string>, lower: string -> string) {
    InUse(used, names, lower) && (AllDiffer(first, lower) ==> AllDiffer(names, lower))
  }

  /** Nothing that was there changed, and what is new is canonical. */
  ghost predicate Grown(first: map<AccountId, string>, names: map<AccountId, string>) {
    && (forall id :: id in first ==> id in names && names[id] == first[id])
    && (forall id :: id in names && id !in first ==> Canonical(names[id]))
  }

  ghost predicate AllUuids(rows: seq<Row>) {
    forall i :: 0 <= i < |rows| ==> IsUuid(rows[i].id)
  }

  lemma AllValid(before: map<AccountId, string>, now: map<AccountId, string>, lower: string -> string)
    requires LowerCases(lower)
    requires Grown(before, now)
    ensures forall id :: id in now && id !in before ==> ValidateUsername(now[id], lower) == Ok(now[id])
  {
    forall id | id in now && id !in before ensures ValidateUsername(now[id], lower) == Ok(now[id]) {
      CanonicalIff(now[id], lower);
    }
  }

  lemma OneMore(names: map<AccountId, string>, used: set<string>, id: AccountId, name: string, lower: string -> string,
                first: map<AccountId, string>)
    requires id !in names && name !in used && lower(name) == name
    ensures Kept(first, names, used, lower) ==> Kept(first, names[id := name], used + {name}, lower)
  {
    if InUse(used, names, lower) {
      OneMoreInUse(names, used, id, name, lower);
    }
  }

  lemma OneMoreInUse(names: map<AccountId, string>, used: set<string>, id: AccountId, name: string, lower: string -> string)
    requires id !in names && lower(name) == name && InUse(used, names, lower)
    ensures InUse(used + {name}, names[id := name], lower)
  {
    var names' := names[id := name];
    forall s ensures s in used + {name} <==> exists k :: k in names' && lower(names'[k]) == s {
      if s == name {
        assert lower(names'[id]) == s;
      } else if s in used {
        var k :| k in names && lower(names[k]) == s;
        assert lower(names'[k]) == s;
      }
    }
  }
}
