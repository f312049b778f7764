/** Recovery codes: five hashes are stored at signup, and a login with a recovery code uses one up.
    Hash comparison is a parameter, and so are the failures of the database. */
module RecoveryCodes {

  datatype Row = Row(id: string, code: string, used: bool)

  /** The accounts are known by their primary key; the rows are in the order of insertion. */
  datatype Tables = Tables(accounts: set<string>, rows: seq<Row>)

  /** `verify_password(hash, input)`. */
  type Matcher = (string, string) -> bool

  /** How many rows each of the two reads of a login delivers before the database fails, and whether
      the update fails. */
  datatype Faults = Faults(firstRead: nat, secondRead: nat, updateFails: bool)

  function Take<T>(s: seq<T>, n: nat): (r: seq<T>)
    ensures r <= s && (n >= |s| ==> r == s)
  {
    if n >= |s| then s else s[..n]
  }

  // ---------- Steps on values ----------

  /** The hashes of an account that are not used. */
  function Unused(rows: seq<Row>, id: string): seq<string>
  {
    if rows == [] then []
    else
      var before, row := Unused(rows[..|rows| - 1], id), rows[|rows| - 1];
      if row.id == id && !row.used then before + [row.code] else before
  }

  /** The first hash that matches; the empty string stands for none. */
  function FirstMatch(matches: Matcher, hashes: seq<string>, input: string): string
  {
    if hashes == [] then "" else if matches(hashes[0], input) then hashes[0] else FirstMatch(matches, hashes[1..], input)
  }

  predicate AnyMatch(matches: Matcher, hashes: seq<string>, input: string)
  {
    exists k :: 0 <= k < |hashes| && matches(hashes[k], input)
  }

  function MarkedRow(row: Row, id: string, code: string): Row
  {
    if row.id == id && row.code == code then row.(used := true) else row
  }

  function Marked(rows: seq<Row>, id: string, code: string): (r: seq<Row>)
    ensures |r| == |rows|
  {
    seq(|rows|, k requires 0 <= k < |rows| => MarkedRow(rows[k], id, code))
  }

  predicate Succeeds(matches: Matcher, t: Tables, id: string, input: string, f: Faults)
  {
    AnyMatch(matches, Take(Unused(t.rows, id), f.firstRead), input)
  }

  function Invalidated(matches: Matcher, t: Tables, id: string, input: string, f: Faults): Tables
  {
    var hash := FirstMatch(matches, Take(Unused(t.rows, id), f.secondRead), input);
    if hash == "" || f.updateFails then t else t.(rows := Marked(t.rows, id, hash))
  }

  function LoggedIn(matches: Matcher, t: Tables, id: string, input: string, f: Faults): Tables
  {
    if Succeeds(matches, t, id, input, f) then Invalidated(matches, t, id, input, f) else t
  }

  function NewRows(id: string, hashes: seq<string>): (r: seq<Row>)
    ensures |r| == |hashes|
  {
    seq(|hashes|, k requires 0 <= k < |hashes| => Row(id, hashes[k], false))
  }

  /** The failures of a signup: the insertion of the account, the hashing of the codes after it, and the
      transaction that stores all of the codes or none. */
  datatype SignUpFaults = SignUpFaults(insertFails: bool, hashingFails: bool, storeFails: bool)

  /** The insertion of an account also fails when the id is taken. */
  predicate Inserts(t: Tables, id: string, f: SignUpFaults) { id !in t.accounts && !f.insertFails }

  /** What is reported: an exception from hashing turns success into failure. */
  predicate SignUpSucceeds(t: Tables, id: string, useOtp: bool, f: SignUpFaults)
  {
    Inserts(t, id, f) && !(useOtp && f.hashingFails)
  }

  function SignedUp(t: Tables, id: string, hashes: seq<string>, useOtp: bool, f: SignUpFaults): Tables
  {
    if !Inserts(t, id, f) then t
    else Tables(t.accounts + {id}, if useOtp && !f.hashingFails && !f.storeFails then t.rows + NewRows(id, hashes) else t.rows)
  }

  // ---------- The handlers ----------

  class Database {
    const matches: Matcher
    var accounts: set<string>
    var rows: seq<Row>

    constructor (matches: Matcher)
      ensures this.matches == matches && accounts == {} && rows == []
    {
      this.matches := matches;
      accounts, rows := {}, [];
    }

    function Contents(): Tables
      reads this
    {
      Tables(accounts, rows)
    }

    /** Reads the unused hashes of an account; a failure keeps those read before it. */
    method GetHashedRecoveryCodes(id: string, limit: nat) returns (codes: seq<string>)
      ensures codes == Take(Unused(rows, id), limit)
    {
      codes := [];
      for k := 0 to |rows|
        invariant codes == Unused(rows[..k], id) && |codes| <= limit
      {
        assert rows[..k + 1][..k] == rows[..k];
        if rows[k].id == id && !rows[k].used {
          if |codes| == limit {
            UnusedGrows(rows, k, id);
            return;
          }
          codes := codes + [rows[k].code];
        }
      }
      assert rows[..|rows|] == rows;
    }

    method VerifyRecoveryCode(id: string, input: string, limit: nat) returns (ok: bool)
      ensures ok <==> AnyMatch(matches, Take(Unused(rows, id), limit), input)
    {
      var hashed := GetHashedRecoveryCodes(id, limit);
      for k := 0 to |hashed|
        invariant forall j :: 0 <= j < k ==> !matches(hashed[j], input)
      {
        if matches(hashed[k], input) {
          return true;
        }
      }
      ok := false;
    }

    /** Marks all rows of the account that hold the first matching unused hash. */
    method InvalidateRecoveryCode(id: string, input: string, limit: nat, updateFails: bool) returns (ok: bool)
      modifies this`rows
      ensures Contents() == Invalidated(matches, old(Contents()), id, input, Faults(0, limit, updateFails))
      ensures ok <==> FirstMatch(matches, Take(Unused(old(rows), id), limit), input) != "" && !updateFails
    {
      var hashed := GetHashedRecoveryCodes(id, limit);
      var matched := "";
      var k := 0;
      while k < |hashed|
        invariant 0 <= k <= |hashed| && matched == ""
        invariant FirstMatch(matches, hashed, input) == FirstMatch(matches, hashed[k..], input)
        decreases |hashed| - k
      {
        assert hashed[k..][1..] == hashed[k + 1..];
        if matches(hashed[k], input) {
          matched := hashed[k];
          break;
        }
        k := k + 1;
      }
      if matched == "" {
        return false;
      }
      if updateFails {
        return false;
      }
      rows := Marked(rows, id, matched);
      ok := true;
    }

    /** The recovery branch of a login. It succeeds as soon as a code matches, whatever becomes of the
        invalidation. */
    method LoginWithRecoveryCode(id: string, input: string, f: Faults) returns (success: bool)
      modifies this`rows
      ensures success <==> Succeeds(matches, old(Contents()), id, input, f)
      ensures Contents() == LoggedIn(matches, old(Contents()), id, input, f)
    {
      success := VerifyRecoveryCode(id, input, f.firstRead);
      if success {
        var _ := InvalidateRecoveryCode(id, input, f.secondRead, f.updateFails);
      }
    }

    method SignUp(id: string, hashes: seq<string>, useOtp: bool, f: SignUpFaults) returns (success: bool)
      modifies this
      ensures success <==> SignUpSucceeds(old(Contents()), id, useOtp, f)
      ensures Contents() == SignedUp(old(Contents()), id, hashes, useOtp, f)
    {
      if id in accounts || f.insertFails {
        return false;
      }
      accounts := accounts + {id};
      if useOtp && f.hashingFails {
        return false;
      }
      if useOtp && !f.storeFails {
        ghost var before := rows;
        for k := 0 to |hashes|
          invariant accounts == old(accounts) + {id} && rows == before + NewRows(id, hashes)[..k]
        {
          rows := rows + [Row(id, hashes[k], false)];
        }
      }
      success := true;
    }
  }

  lemma {:induction false} UnusedGrows(rows: seq<Row>, k: nat, id: string)
    requires k <= |rows|
    ensures Unused(rows[..k], id) <= Unused(rows, id)
    decreases |rows|
  {
    if k == |rows| {
      assert rows[..k] == rows;
    } else {
      UnusedGrows(rows[..|rows| - 1], k, id);
      assert rows[..|rows| - 1][..k] == rows[..k];
    }
  }

  // ---------- Counting ----------

  /** How many rows an account has, and how many of them are used. */
  function RowCount(rows: seq<Row>, id: string): nat
  {
    if rows == [] then 0 else RowCount(rows[..|rows| - 1], id) + (if rows[|rows| - 1].id == id then 1 else 0)
  }

  function UsedCount(rows: seq<Row>, id: string): (n: nat)
    ensures n <= RowCount(rows, id)
  {
    if rows == [] then 0
    else UsedCount(rows[..|rows| - 1], id) + (if rows[|rows| - 1].id == id && rows[|rows| - 1].used then 1 else 0)
  }

  /** Used rows stay used, and no row changes otherwise. */
  ghost predicate Later(rows: seq<Row>, after: seq<Row>)
  {
    && |rows| <= |after|
    && forall k :: 0 <= k < |rows| ==> after[k].id == rows[k].id && after[k].code == rows[k].code && (rows[k].used ==> after[k].used)
  }

  lemma {:induction false} MarkedPrefix(rows: seq<Row>, id: string, code: string)
    requires rows != []
    ensures Marked(rows, id, code)[..|rows| - 1] == Marked(rows[..|rows| - 1], id, code)
    ensures Marked(rows, id, code)[|rows| - 1] == MarkedRow(rows[|rows| - 1], id, code)
  {}

  /** Marking never lowers a count, and raises it for a hash that was unused. */
  lemma {:induction false} MarkedCounts(rows: seq<Row>, id: string, code: string, other: string)
    ensures RowCount(Marked(rows, id, code), other) == RowCount(rows, other)
    ensures UsedCount(Marked(rows, id, code), other) >= UsedCount(rows, other)
    ensures code in Unused(rows, id) ==> UsedCount(Marked(rows, id, code), id) > UsedCount(rows, id)
  {
    hide Marked;
    if rows == [] {
    } else {
      MarkedPrefix(rows, id, code);
      MarkedCounts(rows[..|rows| - 1], id, code, other);
      MarkedCounts(rows[..|rows| - 1], id, code, id);
    }
  }

  lemma {:induction false} FirstMatchFound(matches: Matcher, hashes: seq<string>, input: string)
    ensures FirstMatch(matches, hashes, input) != "" ==> FirstMatch(matches, hashes, input) in hashes
    ensures AnyMatch(matches, hashes, input) && "" !in hashes ==> FirstMatch(matches, hashes, input) != ""
  {
    if hashes != [] {
      FirstMatchFound(matches, hashes[1..], input);
      if AnyMatch(matches, hashes, input) && !matches(hashes[0], input) {
        var k :| 0 <= k < |hashes| && matches(hashes[k], input);
        assert hashes[1..][k - 1] == hashes[k];
        assert AnyMatch(matches, hashes[1..], input);
      }
    }
  }

  // ---------- Runs ----------

  datatype Event =
    | SignUp(id: string, hashes: seq<string>, useOtp: bool, signUpFaults: SignUpFaults)
    | Login(id: string, input: string, faults: Faults)

  function Apply(matches: Matcher, t: Tables, e: Event): Tables
  {
    match e
    case SignUp(id, hashes, useOtp, f) => SignedUp(t, id, hashes, useOtp, f)
    case Login(id, input, f) => LoggedIn(matches, t, id, input, f)
  }

  function Run(matches: Matcher, events: seq<Event>): Tables
  {
    if events == [] then Tables({}, []) else Apply(matches, Run(matches, events[..|events| - 1]), events[|events| - 1])
  }

  /** Five codes are generated for a signup, and no hash is empty. */
  predicate Proper(e: Event)
  {
    e.SignUp? ==> |e.hashes| == 5 && "" !in e.hashes
  }

  predicate AllProper(events: seq<Event>) { forall k :: 0 <= k < |events| ==> Proper(events[k]) }

  predicate SucceedsFor(matches: Matcher, t: Tables, e: Event, id: string)
  {
    e.Login? && e.id == id && Succeeds(matches, t, id, e.input, e.faults)
  }

  /** The matching code is not marked: the update fails, or the second read ends before a match. */
  predicate Slips(matches: Matcher, t: Tables, id: string, input: string, f: Faults)
  {
    f.updateFails || !AnyMatch(matches, Take(Unused(t.rows, id), f.secondRead), input)
  }

  predicate SlipsFor(matches: Matcher, t: Tables, e: Event, id: string)
  {
    SucceedsFor(matches, t, e, id) && Slips(matches, t, id, e.input, e.faults)
  }

  function Successes(matches: Matcher, events: seq<Event>, id: string): nat
  {
    if events == [] then 0
    else
      var before := events[..|events| - 1];
      Successes(matches, before, id)
      + (if SucceedsFor(matches, Run(matches, before), events[|events| - 1], id) then 1 else 0)
  }

  function SlipCount(matches: Matcher, events: seq<Event>, id: string): nat
  {
    if events == [] then 0
    else
      var before := events[..|events| - 1];
      SlipCount(matches, before, id)
      + (if SlipsFor(matches, Run(matches, before), events[|events| - 1], id) then 1 else 0)
  }

  /** Rows belong to accounts, no account has more than five, and no hash is empty. */
  ghost predicate Sound(t: Tables)
  {
    && (forall id :: RowCount(t.rows, id) <= 5)
    && (forall id :: id !in t.accounts ==> RowCount(t.rows, id) == 0)
    && forall k :: 0 <= k < |t.rows| ==> t.rows[k].code != ""
  }

  lemma {:induction false} NewRowsCounts(rows: seq<Row>, id: string, hashes: seq<string>, other: string)
    ensures RowCount(rows + NewRows(id, hashes), other) == RowCount(rows, other) + (if other == id then |hashes| else 0)
    ensures UsedCount(rows + NewRows(id, hashes), other) == UsedCount(rows, other)
    decreases |hashes|
  {
    hide RowCount, UsedCount;
    if hashes == [] {
      assert rows + NewRows(id, hashes) == rows;
    } else {
      var n := |hashes| - 1;
      var earlier, last := rows + NewRows(id, hashes[..n]), Row(id, hashes[n], false);
      NewRowsCounts(rows, id, hashes[..n], other);
      assert rows + NewRows(id, hashes) == earlier + [last];
      OneRowCounts(earlier, last, other);
    }
  }

  lemma {:induction false} OneRowCounts(rows: seq<Row>, row: Row, id: string)
    ensures RowCount(rows + [row], id) == RowCount(rows, id) + (if row.id == id then 1 else 0)
    ensures UsedCount(rows + [row], id) == UsedCount(rows, id) + (if row.id == id && row.used then 1 else 0)
  {
    assert (rows + [row])[..|rows|] == rows;
  }

  lemma {:induction false} LoginSound(matches: Matcher, t: Tables, id: string, input: string, f: Faults)
    requires Sound(t)
    ensures Sound(LoggedIn(matches, t, id, input, f)) && LoggedIn(matches, t, id, input, f).accounts == t.accounts
    ensures forall other :: UsedCount(LoggedIn(matches, t, id, input, f).rows, other) >= UsedCount(t.rows, other)
    ensures Later(t.rows, LoggedIn(matches, t, id, input, f).rows)
  {
    hide FirstMatch, AnyMatch, Unused, UsedCount, RowCount, Take;
    var hash := FirstMatch(matches, Take(Unused(t.rows, id), f.secondRead), input);
    forall other
      ensures RowCount(Marked(t.rows, id, hash), other) == RowCount(t.rows, other)
      ensures UsedCount(Marked(t.rows, id, hash), other) >= UsedCount(t.rows, other)
    {
      MarkedCounts(t.rows, id, hash, other);
    }
  }

  lemma {:induction false} SignUpSound(t: Tables, id: string, hashes: seq<string>, useOtp: bool, f: SignUpFaults)
    requires Sound(t) && |hashes| == 5 && "" !in hashes
    ensures var t' := SignedUp(t, id, hashes, useOtp, f);
            Sound(t') && Later(t.rows, t'.rows) && forall other :: UsedCount(t'.rows, other) == UsedCount(t.rows, other)
  {
    hide UsedCount, RowCount;
    forall other
      ensures RowCount(t.rows + NewRows(id, hashes), other) == RowCount(t.rows, other) + (if other == id then 5 else 0)
      ensures UsedCount(t.rows + NewRows(id, hashes), other) == UsedCount(t.rows, other)
    {
      NewRowsCounts(t.rows, id, hashes, other);
    }
  }

  /** Every step keeps the tables sound, never turns a used row unused, and never lowers a count. */
  lemma {:induction false} ApplySound(matches: Matcher, t: Tables, e: Event)
    requires Sound(t) && Proper(e)
    ensures Sound(Apply(matches, t, e)) && Later(t.rows, Apply(matches, t, e).rows)
    ensures forall other :: UsedCount(Apply(matches, t, e).rows, other) >= UsedCount(t.rows, other)
  {
    hide Sound, Later, SignedUp, LoggedIn;
    match e
    case SignUp(id, hashes, useOtp, f) => SignUpSound(t, id, hashes, useOtp, f);
    case Login(id, input, f) => LoginSound(matches, t, id, input, f);
  }

  lemma {:induction false} RunSound(matches: Matcher, events: seq<Event>)
    requires AllProper(events)
    ensures Sound(Run(matches, events))
  {
    hide Sound, Apply, Proper;
    if events == [] {
      EmptySound();
    } else {
      RunSound(matches, events[..|events| - 1]);
      ApplySound(matches, Run(matches, events[..|events| - 1]), events[|events| - 1]);
    }
  }

  lemma {:induction false} EmptySound()
    ensures Sound(Tables({}, []))
  {}

  lemma {:induction false} UnusedCodes(rows: seq<Row>, id: string)
    requires forall k :: 0 <= k < |rows| ==> rows[k].code != ""
    ensures "" !in Unused(rows, id)
  {
    if rows != [] { UnusedCodes(rows[..|rows| - 1], id); }
  }

  lemma {:induction false} FirstMatchMeans(matches: Matcher, hashes: seq<string>, n: nat, input: string)
    requires "" !in hashes
    ensures var first := FirstMatch(matches, Take(hashes, n), input);
            (first != "" <==> AnyMatch(matches, Take(hashes, n), input)) && (first != "" ==> first in hashes)
  {
    hide FirstMatch, AnyMatch;
    var read := Take(hashes, n);
    FirstMatchFound(matches, read, input);
    MatchOfNothing(matches, read, input);
  }

  lemma {:induction false} MatchOfNothing(matches: Matcher, hashes: seq<string>, input: string)
    ensures !AnyMatch(matches, hashes, input) ==> FirstMatch(matches, hashes, input) == ""
  {
    if hashes != [] {
      MatchOfNothing(matches, hashes[1..], input);
      if AnyMatch(matches, hashes[1..], input) {
        var k :| 0 <= k < |hashes| - 1 && matches(hashes[1..][k], input);
        assert hashes[k + 1] == hashes[1..][k];
      }
    }
  }

  /** A successful login leaves the count of used rows as it was, and all tables with it, exactly if it
      slips: if the update fails or the second read ends before a match. */
  lemma {:induction false} SlipsIff(matches: Matcher, t: Tables, id: string, input: string, f: Faults)
    requires Sound(t) && Succeeds(matches, t, id, input, f)
    ensures var after := LoggedIn(matches, t, id, input, f);
            && (Slips(matches, t, id, input, f) <==> UsedCount(after.rows, id) == UsedCount(t.rows, id))
            && (Slips(matches, t, id, input, f) <==> after == t)
  {
    hide UsedCount, RowCount, AnyMatch, FirstMatch, Unused, Take;
    var hashes := Unused(t.rows, id);
    UnusedCodes(t.rows, id);
    FirstMatchMeans(matches, hashes, f.secondRead, input);
    MarkedCounts(t.rows, id, FirstMatch(matches, Take(hashes, f.secondRead), input), id);
  }

  /** Every successful login marked a row of its account, or slipped. */
  lemma {:induction false} SuccessesCounted(matches: Matcher, events: seq<Event>, id: string)
    requires AllProper(events)
    ensures Successes(matches, events, id) <= UsedCount(Run(matches, events).rows, id) + SlipCount(matches, events, id)
  {
    hide Sound, Apply, Proper, UsedCount, Slips, Succeeds;
    if events == [] {
    } else {
      var before, e := events[..|events| - 1], events[|events| - 1];
      var t := Run(matches, before);
      SuccessesCounted(matches, before, id);
      RunSound(matches, before);
      ApplySound(matches, t, e);
      if SucceedsFor(matches, t, e, id) {
        SlipsIff(matches, t, id, e.input, e.faults);
        LoginApplies(matches, t, e);
      }
    }
  }

  lemma {:induction false} LoginApplies(matches: Matcher, t: Tables, e: Event)
    requires e.Login?
    ensures Apply(matches, t, e) == LoggedIn(matches, t, e.id, e.input, e.faults)
  {
    hide LoggedIn;
  }

  /** Over every run of signups and logins by any clients, an account has at most five successful
      recovery logins besides those that slipped. */
  lemma {:induction false} AtMostFiveLogins(matches: Matcher, events: seq<Event>, id: string)
    requires AllProper(events)
    ensures Successes(matches, events, id) <= 5 + SlipCount(matches, events, id)
  {
    hide Run, Successes, SlipCount, Proper, RowCount;
    SuccessesCounted(matches, events, id);
    RunSound(matches, events);
  }

  function Copies(e: Event, n: nat): (r: seq<Event>)
    ensures |r| == n
  {
    seq(n, _ => e)
  }

  lemma {:induction false} OneMore(matches: Matcher, events: seq<Event>, e: Event, id: string)
    ensures Run(matches, events + [e]) == Apply(matches, Run(matches, events), e)
    ensures Successes(matches, events + [e], id)
         == Successes(matches, events, id) + (if SucceedsFor(matches, Run(matches, events), e, id) then 1 else 0)
  {
    hide Apply, SucceedsFor;
    assert (events + [e])[..|events|] == events;
  }

  /** A login that slips once slips as often as it is repeated: `n` copies of it add `n` successes and
      leave the tables as they were. So the slips are exactly what breaks the bound. */
  lemma {:induction false} SlipsRepeat(matches: Matcher, events: seq<Event>, e: Event, n: nat)
    requires AllProper(events) && e.Login? && SlipsFor(matches, Run(matches, events), e, e.id)
    ensures Run(matches, events + Copies(e, n)) == Run(matches, events)
    ensures Successes(matches, events + Copies(e, n), e.id) == Successes(matches, events, e.id) + n
  {
    hide Run, Successes, Proper, Sound, Slips, Succeeds;
    if n == 0 {
      assert events + Copies(e, 0) == events;
    } else {
      SlipsRepeat(matches, events, e, n - 1);
      var earlier, t := events + Copies(e, n - 1), Run(matches, events);
      assert events + Copies(e, n) == earlier + [e];
      OneMore(matches, earlier, e, e.id);
      RunSound(matches, events);
      SlipsIff(matches, t, e.id, e.input, e.faults);
      LoginApplies(matches, t, e);
    }
  }

  lemma {:induction false} UnusedBounded(rows: seq<Row>, id: string)
    ensures |Unused(rows, id)| <= RowCount(rows, id)
  {
    if rows != [] { UnusedBounded(rows[..|rows| - 1], id); }
  }

  // ---------- Which failures matter ----------

  /** The first read delivers nothing, or the second read delivers as much of the five codes as the first
      and the update works. */
  predicate Harmless(f: Faults)
  {
    f.firstRead == 0 || (!f.updateFails && (f.secondRead >= f.firstRead || f.secondRead >= 5))
  }

  lemma {:induction false} LaterReadMatches(matches: Matcher, hashes: seq<string>, m: nat, n: nat, input: string)
    requires AnyMatch(matches, Take(hashes, m), input) && (n >= m || n >= |hashes|)
    ensures AnyMatch(matches, Take(hashes, n), input) && m > 0
  {
    var k :| 0 <= k < |Take(hashes, m)| && matches(Take(hashes, m)[k], input);
    assert Take(hashes, n)[k] == Take(hashes, m)[k];
  }

  lemma {:induction false} HarmlessNeverSlips(matches: Matcher, t: Tables, e: Event, id: string)
    requires Sound(t) && (e.Login? ==> Harmless(e.faults))
    ensures !SlipsFor(matches, t, e, id)
  {
    hide Unused, RowCount, AnyMatch;
    if SlipsFor(matches, t, e, id) {
      var hashes, f := Unused(t.rows, id), e.faults;
      UnusedBounded(t.rows, id);
      LaterReadMatches(matches, hashes, f.firstRead, f.firstRead, e.input);
      LaterReadMatches(matches, hashes, f.firstRead, f.secondRead, e.input);
    }
  }

  predicate AllHarmless(events: seq<Event>) { forall k :: 0 <= k < |events| && events[k].Login? ==> Harmless(events[k].faults) }

  lemma {:induction false} NoSlips(matches: Matcher, events: seq<Event>, id: string)
    requires AllProper(events) && AllHarmless(events)
    ensures SlipCount(matches, events, id) == 0
  {
    hide Sound, Apply, Proper, SlipsFor, Harmless;
    if events == [] {
    } else {
      var before := events[..|events| - 1];
      NoSlips(matches, before, id);
      RunSound(matches, before);
      HarmlessNeverSlips(matches, Run(matches, before), events[|events| - 1], id);
    }
  }

  /** As long as all failures are harmless, five codes are good for at most five logins. */
  lemma {:induction false} FiveCodesFiveLogins(matches: Matcher, events: seq<Event>, id: string)
    requires AllProper(events) && AllHarmless(events)
    ensures Successes(matches, events, id) <= 5
  {
    hide Successes, SlipCount, Proper, AllHarmless;
    AtMostFiveLogins(matches, events, id);
    NoSlips(matches, events, id);
  }

  function SameText(): Matcher { (hash: string, input: string) => hash == input }

  function FiveCodes(): seq<string> { ["a", "b", "c", "d", "e"] }

  function Ann(): Event { SignUp("ann", FiveCodes(), true, SignUpFaults(false, false, false)) }

  /** A code the first read delivers, and the second does not unless only the update fails. */
  function SlippingLogin(f: Faults): Event
  {
    Login("ann", if f.updateFails || f.secondRead >= 5 then "a" else FiveCodes()[f.secondRead], f)
  }

  lemma {:induction false} UnusedOneMore(rows: seq<Row>, row: Row, id: string)
    ensures Unused(rows + [row], id) == Unused(rows, id) + (if row.id == id && !row.used then [row.code] else [])
  {
    assert (rows + [row])[..|rows|] == rows;
  }

  lemma {:induction false} UnusedAppended(rows: seq<Row>, id: string, hashes: seq<string>, other: string)
    ensures Unused(rows + NewRows(id, hashes), other) == Unused(rows, other) + (if other == id then hashes else [])
    decreases |hashes|
  {
    hide Unused;
    if hashes == [] {
      assert rows + NewRows(id, hashes) == rows;
    } else {
      var n := |hashes| - 1;
      var earlier, last := rows + NewRows(id, hashes[..n]), Row(id, hashes[n], false);
      UnusedAppended(rows, id, hashes[..n], other);
      assert rows + NewRows(id, hashes) == earlier + [last];
      UnusedOneMore(earlier, last, other);
      assert hashes == hashes[..n] + [hashes[n]];
    }
  }

  lemma {:induction false} UnusedNew(id: string, hashes: seq<string>)
    ensures Unused(NewRows(id, hashes), id) == hashes
  {
    UnusedAppended([], id, hashes, id);
    assert [] + NewRows(id, hashes) == NewRows(id, hashes) && [] + hashes == hashes;
  }

  lemma {:induction false} AnnSignedUp()
    ensures Run(SameText(), [Ann()]) == Tables({"ann"}, NewRows("ann", FiveCodes()))
    ensures Successes(SameText(), [Ann()], "ann") == 0 && AllProper([Ann()])
  {
    assert [Ann()][..0] == [];
    assert Run(SameText(), []) == Tables({}, []);
    assert {} + {"ann"} == {"ann"};
    assert [] + NewRows("ann", FiveCodes()) == NewRows("ann", FiveCodes());
  }

  lemma {:induction false} AnnSlips(f: Faults)
    requires !Harmless(f)
    ensures SlipsFor(SameText(), Tables({"ann"}, NewRows("ann", FiveCodes())), SlippingLogin(f), "ann")
  {
    hide Unused;
    UnusedNew("ann", FiveCodes());
    var codes, input := FiveCodes(), SlippingLogin(f).input;
    var k := if f.updateFails || f.secondRead >= 5 then 0 else f.secondRead;
    assert Take(codes, f.firstRead)[k] == input;
    assert SameText()(Take(codes, f.firstRead)[k], input);
    if !f.updateFails {
      assert forall j :: 0 <= j < |Take(codes, f.secondRead)| ==> Take(codes, f.secondRead)[j] == codes[j] != input;
    }
  }

  /** For failures that are not harmless: one signup and six logins with one code, six successes. */
  lemma {:induction false} SixLogins(f: Faults)
    requires !Harmless(f)
    ensures var events := [Ann()] + Copies(SlippingLogin(f), 6);
            AllProper(events) && OnlyFaults(events, f) && Successes(SameText(), events, "ann") == 6
  {
    hide Run, Successes, Harmless, SlipsFor;
    AnnSignedUp();
    AnnSlips(f);
    SlipsRepeat(SameText(), [Ann()], SlippingLogin(f), 6);
  }

  predicate OnlyFaults(events: seq<Event>, f: Faults) { forall k :: 0 <= k < |events| && events[k].Login? ==> events[k].faults == f }

  ghost predicate BoundHolds(f: Faults)
  {
    forall matches, events, id :: AllProper(events) && OnlyFaults(events, f) ==> Successes(matches, events, id) <= 5
  }

  /** The bound of five holds in all runs whose logins fail like `f` if and only if `f` is harmless. */
  lemma {:induction false} BoundHoldsIff(f: Faults)
    ensures BoundHolds(f) <==> Harmless(f)
  {
    hide Successes, Harmless, AllProper;
    if Harmless(f) {
      forall matches, events, id | AllProper(events) && OnlyFaults(events, f) ensures Successes(matches, events, id) <= 5 {
        FiveCodesFiveLogins(matches, events, id);
      }
    } else {
      SixLogins(f);
    }
  }

  // ---------- A signup that fails halfway ----------

  /** A signup reported as failed changes the tables if and only if hashing fails after the insertion.
      The account is then there without recovery codes, and no later signup for its id succeeds. */
  lemma {:induction false} FailedHashingTakesId(t: Tables, id: string, hashes: seq<string>, useOtp: bool, f: SignUpFaults)
    ensures !SignUpSucceeds(t, id, useOtp, f) && SignedUp(t, id, hashes, useOtp, f) != t
       <==> Inserts(t, id, f) && useOtp && f.hashingFails
    ensures Sound(t) && Inserts(t, id, f) && useOtp && f.hashingFails ==>
              var after := SignedUp(t, id, hashes, useOtp, f);
              && id in after.accounts && RowCount(after.rows, id) == 0
              && forall otp, g :: !SignUpSucceeds(after, id, otp, g)
  {
    hide RowCount;
    if Inserts(t, id, f) {
      assert id in SignedUp(t, id, hashes, useOtp, f).accounts;
    }
  }

  /** A signup with codes is reported as successful and stores none of them if and only if hashing works
      and the transaction that stores them fails. */
  lemma {:induction false} FailedStoreLosesCodes(t: Tables, id: string, hashes: seq<string>, useOtp: bool, f: SignUpFaults)
    ensures hashes != [] ==>
              (SignUpSucceeds(t, id, useOtp, f) && useOtp && SignedUp(t, id, hashes, useOtp, f).rows == t.rows
               <==> Inserts(t, id, f) && useOtp && !f.hashingFails && f.storeFails)
  {
    assert |t.rows + NewRows(id, hashes)| == |t.rows| + |hashes|;
  }

  /** One signup of each kind on empty tables. */
  lemma {:induction false} HalfwaySignUps()
    ensures var t, f := Tables({}, []), SignUpFaults(false, true, false);
            !SignUpSucceeds(t, "ann", true, f) && SignedUp(t, "ann", FiveCodes(), true, f) == Tables({"ann"}, [])
    ensures var t, f := Tables({}, []), SignUpFaults(false, false, true);
            SignUpSucceeds(t, "ann", true, f) && SignedUp(t, "ann", FiveCodes(), true, f) == Tables({"ann"}, [])
  {
    assert {} + {"ann"} == {"ann"};
  }

  // ---------- What a login uses up ----------

  /** The hashes without one of them. */
  function Without(hashes: seq<string>, hash: string): (r: seq<string>)
    ensures forall h :: h in r <==> h in hashes && h != hash
    ensures |r| <= |hashes|
  {
    if hashes == [] then []
    else
      var before, last := Without(hashes[..|hashes| - 1], hash), hashes[|hashes| - 1];
      if last == hash then before else before + [last]
  }

  lemma {:induction false} WithoutMore(hashes: seq<string>, last: string, hash: string)
    ensures Without(hashes + [last], hash) == if last == hash then Without(hashes, hash) else Without(hashes, hash) + [last]
  {
    assert (hashes + [last])[..|hashes|] == hashes;
  }

  lemma {:induction false} UnusedAfterMarking(rows: seq<Row>, id: string, code: string, other: string)
    ensures Unused(Marked(rows, id, code), other) == if other == id then Without(Unused(rows, other), code) else Unused(rows, other)
  {
    hide Marked, Without;
    if rows == [] {
      NothingWithout(code);
    } else {
      var before, row := rows[..|rows| - 1], rows[|rows| - 1];
      MarkedPrefix(rows, id, code);
      UnusedAfterMarking(before, id, code, other);
      WithoutMore(Unused(before, other), row.code, code);
    }
  }

  lemma {:induction false} NothingWithout(hash: string)
    ensures Without([], hash) == []
  {}

  /** A successful login that does not slip uses up exactly the first hash that matches: its rows become
      used and no other row changes, so the account keeps its other codes and other accounts keep theirs. */
  lemma {:induction false} LoginUsesOneCode(matches: Matcher, t: Tables, id: string, input: string, f: Faults)
    requires Sound(t) && Succeeds(matches, t, id, input, f) && !Slips(matches, t, id, input, f)
    ensures var hash, after := FirstMatch(matches, Take(Unused(t.rows, id), f.secondRead), input), LoggedIn(matches, t, id, input, f);
            && hash in Unused(t.rows, id) && matches(hash, input)
            && after.accounts == t.accounts && |after.rows| == |t.rows|
            && (forall k :: 0 <= k < |t.rows| ==>
                  after.rows[k] == t.rows[k].(used := t.rows[k].used || (t.rows[k].id == id && t.rows[k].code == hash)))
            && Unused(after.rows, id) == Without(Unused(t.rows, id), hash)
            && forall other :: other != id ==> Unused(after.rows, other) == Unused(t.rows, other)
  {
    hide Sound, Unused, FirstMatch, AnyMatch, Without, Take;
    var hashes := Unused(t.rows, id);
    var hash := FirstMatch(matches, Take(hashes, f.secondRead), input);
    TakenNotEmpty(t, id, f.secondRead);
    FirstMatchFound(matches, Take(hashes, f.secondRead), input);
    FirstMatchMatches(matches, Take(hashes, f.secondRead), input);
    forall other ensures Unused(Marked(t.rows, id, hash), other) == if other == id then Without(Unused(t.rows, id), hash) else Unused(t.rows, other) {
      UnusedAfterMarking(t.rows, id, hash, other);
    }
  }

  lemma {:induction false} TakenNotEmpty(t: Tables, id: string, n: nat)
    requires Sound(t)
    ensures "" !in Take(Unused(t.rows, id), n)
    ensures forall h :: h in Take(Unused(t.rows, id), n) ==> h in Unused(t.rows, id)
  {
    hide Unused;
    UnusedCodes(t.rows, id);
  }

  lemma {:induction false} FirstMatchMatches(matches: Matcher, hashes: seq<string>, input: string)
    ensures FirstMatch(matches, hashes, input) != "" ==> matches(FirstMatch(matches, hashes, input), input)
  {
    if hashes != [] { FirstMatchMatches(matches, hashes[1..], input); }
  }

  // ---------- Every code works once ----------

  /** Input `k` matches hash `k` and no other. */
  ghost predicate Opens(matches: Matcher, hashes: seq<string>, inputs: seq<string>)
  {
    |inputs| == |hashes| && forall j, k :: 0 <= j < |hashes| && 0 <= k < |inputs| ==> (matches(hashes[j], inputs[k]) <==> j == k)
  }

  /** Distinct places of a sequence of length `n`. */
  ghost predicate Places(order: seq<nat>, n: nat)
  {
    && (forall k :: 0 <= k < |order| ==> order[k] < n)
    && forall i, k :: 0 <= i < k < |order| ==> order[i] != order[k]
  }

  predicate Faultless(f: Faults) { f.firstRead >= 5 && f.secondRead >= 5 && !f.updateFails }

  /** One login without failures for each place, in the given order. */
  ghost predicate LoginsInOrder(logins: seq<Event>, id: string, inputs: seq<string>, order: seq<nat>)
    requires Places(order, |inputs|)
  {
    |logins| == |order| && forall k :: 0 <= k < |logins| ==>
      logins[k].Login? && logins[k].id == id && logins[k].input == inputs[order[k]] && Faultless(logins[k].faults)
  }

  /** The unused codes of the account are those at places that are not in `order`. */
  ghost predicate CodesLeft(t: Tables, id: string, hashes: seq<string>, order: seq<nat>)
  {
    forall h :: h in Unused(t.rows, id) <==> exists j :: 0 <= j < |hashes| && j !in order && hashes[j] == h
  }

  lemma {:induction false} HashesDiffer(matches: Matcher, hashes: seq<string>, inputs: seq<string>, i: nat, j: nat)
    requires Opens(matches, hashes, inputs) && i < |hashes| && j < |hashes| && i != j
    ensures hashes[i] != hashes[j]
  {
    assert matches(hashes[i], inputs[i]) && !matches(hashes[j], inputs[i]);
  }

  lemma {:induction false} FreshCodeSucceeds(matches: Matcher, t: Tables, e: Event, hashes: seq<string>, inputs: seq<string>, order: seq<nat>, j: nat)
    requires Sound(t) && Opens(matches, hashes, inputs) && j < |hashes| && j !in order
    requires e.Login? && e.input == inputs[j] && Faultless(e.faults) && CodesLeft(t, e.id, hashes, order)
    ensures Succeeds(matches, t, e.id, e.input, e.faults) && !Slips(matches, t, e.id, e.input, e.faults)
  {
    hide Unused, RowCount;
    var codes := Unused(t.rows, e.id);
    UnusedBounded(t.rows, e.id);
    assert hashes[j] in codes;
    var k :| 0 <= k < |codes| && codes[k] == hashes[j];
    assert matches(codes[k], e.input);
    assert AnyMatch(matches, codes, e.input);
  }

  lemma {:induction false} LoginUsesItsCode(matches: Matcher, t: Tables, e: Event, hashes: seq<string>, inputs: seq<string>, order: seq<nat>, j: nat)
    requires Sound(t) && Opens(matches, hashes, inputs) && j < |hashes| && j !in order
    requires e.Login? && e.input == inputs[j] && Faultless(e.faults) && CodesLeft(t, e.id, hashes, order)
    ensures SucceedsFor(matches, t, e, e.id) && CodesLeft(Apply(matches, t, e), e.id, hashes, order + [j])
  {
    hide Unused, RowCount, FirstMatch, Take, Succeeds, Slips, Sound, LoggedIn, Without;
    var id, f := e.id, e.faults;
    FreshCodeSucceeds(matches, t, e, hashes, inputs, order, j);
    LoginUsesOneCode(matches, t, id, e.input, f);
    var hash := FirstMatch(matches, Take(Unused(t.rows, id), f.secondRead), e.input);
    var i :| 0 <= i < |hashes| && i !in order && hashes[i] == hash;
    assert i == j;
    var after := Unused(LoggedIn(matches, t, id, e.input, f).rows, id);
    forall h ensures h in after <==> exists k :: 0 <= k < |hashes| && k !in order + [j] && hashes[k] == h {
      if h in after {
        var k :| 0 <= k < |hashes| && k !in order && hashes[k] == h;
        assert k !in order + [j];
      }
      if k :| 0 <= k < |hashes| && k !in order + [j] && hashes[k] == h {
        assert k !in order && k != j;
        HashesDiffer(matches, hashes, inputs, k, j);
      }
    }
  }

  /** After any run, logins without failures, one with each of some unused codes in any order, all succeed. */
  lemma {:induction false} CodesWorkInAnyOrder(matches: Matcher, events: seq<Event>, id: string, hashes: seq<string>, inputs: seq<string>,
                                               logins: seq<Event>, order: seq<nat>)
    requires AllProper(events) && CodesLeft(Run(matches, events), id, hashes, [])
    requires Opens(matches, hashes, inputs) && Places(order, |inputs|) && LoginsInOrder(logins, id, inputs, order)
    ensures AllProper(events + logins) && CodesLeft(Run(matches, events + logins), id, hashes, order)
    ensures Successes(matches, events + logins, id) == Successes(matches, events, id) + |order|
    decreases |order|
  {
    hide Run, Successes, CodesLeft, Opens, Apply, SucceedsFor, Sound;
    if order == [] {
      assert events + logins == events;
    } else {
      var n := |order| - 1;
      CodesWorkInAnyOrder(matches, events, id, hashes, inputs, logins[..n], order[..n]);
      var earlier, e := events + logins[..n], logins[n];
      assert events + logins == earlier + [e];
      assert order == order[..n] + [order[n]];
      OneMore(matches, earlier, e, id);
      RunSound(matches, earlier);
      assert |hashes| == |inputs| by { OpensLength(matches, hashes, inputs); }
      LoginUsesItsCode(matches, Run(matches, earlier), e, hashes, inputs, order[..n], order[n]);
    }
  }

  lemma {:induction false} OpensLength(matches: Matcher, hashes: seq<string>, inputs: seq<string>)
    requires Opens(matches, hashes, inputs)
    ensures |hashes| == |inputs|
  {}

  /** A code that was used is refused, with or without failures. */
  lemma {:induction false} UsedCodeRefused(matches: Matcher, t: Tables, id: string, hashes: seq<string>, inputs: seq<string>, order: seq<nat>, k: nat, f: Faults)
    requires Opens(matches, hashes, inputs) && CodesLeft(t, id, hashes, order) && k < |order| && order[k] < |inputs|
    ensures !Succeeds(matches, t, id, inputs[order[k]], f)
  {
    hide Unused;
    var codes, input := Take(Unused(t.rows, id), f.firstRead), inputs[order[k]];
    forall i | 0 <= i < |codes| ensures !matches(codes[i], input) {
      assert codes[i] in Unused(t.rows, id);
      var j :| 0 <= j < |hashes| && j !in order && hashes[j] == codes[i];
    }
  }

  /** After any run, a signup without failures gives five codes that work once each, in any order. */
  lemma {:induction false} FiveCodesWork(matches: Matcher, events: seq<Event>, e: Event, inputs: seq<string>, logins: seq<Event>, order: seq<nat>)
    requires AllProper(events) && e.SignUp? && Proper(e) && e.useOtp && e.signUpFaults == SignUpFaults(false, false, false)
    requires e.id !in Run(matches, events).accounts && Opens(matches, e.hashes, inputs)
    requires Places(order, |inputs|) && LoginsInOrder(logins, e.id, inputs, order)
    ensures var all := events + [e] + logins;
            && Successes(matches, all, e.id) == Successes(matches, events, e.id) + |order|
            && forall k, f :: 0 <= k < |order| ==> !Succeeds(matches, Run(matches, all), e.id, inputs[order[k]], f)
  {
    hide Run, Successes, CodesLeft, Opens, Succeeds, Unused, RowCount, LoginsInOrder;
    var t := Run(matches, events);
    RunSound(matches, events);
    OneMore(matches, events, e, e.id);
    UnusedBounded(t.rows, e.id);
    UnusedAppended(t.rows, e.id, e.hashes, e.id);
    assert Unused(t.rows, e.id) == [] && [] + e.hashes == e.hashes;
    AllCodesLeft(Run(matches, events + [e]), e.id, e.hashes);
    CodesWorkInAnyOrder(matches, events + [e], e.id, e.hashes, inputs, logins, order);
    forall k, f | 0 <= k < |order| ensures !Succeeds(matches, Run(matches, events + [e] + logins), e.id, inputs[order[k]], f) {
      UsedCodeRefused(matches, Run(matches, events + [e] + logins), e.id, e.hashes, inputs, order, k, f);
    }
  }

  lemma {:induction false} AllCodesLeft(t: Tables, id: string, hashes: seq<string>)
    requires Unused(t.rows, id) == hashes
    ensures CodesLeft(t, id, hashes, [])
  {
    hide Unused;
  }

  // ---------- Accounts that no recovery code opens ----------

  /** The account exists, and its unused codes are among `codes`. */
  ghost predicate CodesWithin(t: Tables, id: string, codes: seq<string>)
  {
    id in t.accounts && forall h :: h in Unused(t.rows, id) ==> h in codes
  }

  /** No step gives an account a code that it does not have. */
  lemma {:induction false} CodesWithinStep(matches: Matcher, t: Tables, e: Event, id: string, codes: seq<string>)
    requires CodesWithin(t, id, codes)
    ensures CodesWithin(Apply(matches, t, e), id, codes)
  {
    hide Unused, AnyMatch, FirstMatch, Marked, Without;
    match e
    case SignUp(other, hashes, useOtp, f) =>
      UnusedAppended(t.rows, other, hashes, id);
    case Login(other, input, f) =>
      UnusedAfterMarking(t.rows, other, FirstMatch(matches, Take(Unused(t.rows, other), f.secondRead), input), id);
  }

  ghost predicate SomeInputMatches(matches: Matcher, codes: seq<string>)
  {
    exists input :: AnyMatch(matches, codes, input)
  }

  lemma {:induction false} SuccessNeedsCode(matches: Matcher, t: Tables, e: Event, id: string, codes: seq<string>)
    requires SucceedsFor(matches, t, e, id) && forall h :: h in Unused(t.rows, id) ==> h in codes
    ensures SomeInputMatches(matches, codes)
  {
    hide Unused;
    var hashes := Take(Unused(t.rows, id), e.faults.firstRead);
    var k :| 0 <= k < |hashes| && matches(hashes[k], e.input);
    assert hashes[k] in Unused(t.rows, id);
    var j :| 0 <= j < |codes| && codes[j] == hashes[k];
    assert AnyMatch(matches, codes, e.input);
  }

  lemma {:induction false} NoMoreSuccesses(matches: Matcher, events: seq<Event>, more: seq<Event>, id: string, codes: seq<string>)
    requires CodesWithin(Run(matches, events), id, codes) && !SomeInputMatches(matches, codes)
    ensures CodesWithin(Run(matches, events + more), id, codes)
    ensures Successes(matches, events + more, id) == Successes(matches, events, id)
    decreases |more|
  {
    hide Run, Successes, SucceedsFor, Apply, SomeInputMatches;
    if more == [] {
      assert events + more == events;
    } else {
      var earlier, e := events + more[..|more| - 1], more[|more| - 1];
      NoMoreSuccesses(matches, events, more[..|more| - 1], id, codes);
      assert events + more == earlier + [e];
      OneMore(matches, earlier, e, id);
      CodesWithinStep(matches, Run(matches, earlier), e, id, codes);
      if SucceedsFor(matches, Run(matches, earlier), e, id) {
        SuccessNeedsCode(matches, Run(matches, earlier), e, id, codes);
      }
    }
  }

  /** No continuation of the run holds another successful recovery login of the account. */
  ghost predicate RecoveryOver(matches: Matcher, events: seq<Event>, id: string)
  {
    forall more :: Successes(matches, events + more, id) == Successes(matches, events, id)
  }

  /** After any run, that is so for an existing account if and only if no input matches an unused code. */
  lemma {:induction false} RecoveryOverIff(matches: Matcher, events: seq<Event>, id: string)
    requires id in Run(matches, events).accounts
    ensures RecoveryOver(matches, events, id) <==> !SomeInputMatches(matches, Unused(Run(matches, events).rows, id))
  {
    hide Run, Successes, Unused, AnyMatch;
    var codes := Unused(Run(matches, events).rows, id);
    if SomeInputMatches(matches, codes) {
      var input :| AnyMatch(matches, codes, input);
      var e := Login(id, input, Faults(|codes|, |codes|, false));
      OneMore(matches, events, e, id);
      assert Successes(matches, events + [e], id) != Successes(matches, events, id);
    } else {
      forall more ensures Successes(matches, events + more, id) == Successes(matches, events, id) {
        NoMoreSuccesses(matches, events, more, id, codes);
      }
    }
  }

  /** After any run, a signup that inserts its account makes one that no recovery code will ever open if
      and only if hashing fails, storing fails or no input matches a code. */
  lemma {:induction false} SignUpRecoveryOverIff(matches: Matcher, events: seq<Event>, e: Event)
    requires AllProper(events) && e.SignUp? && e.useOtp && Inserts(Run(matches, events), e.id, e.signUpFaults)
    ensures RecoveryOver(matches, events + [e], e.id)
       <==> e.signUpFaults.hashingFails || e.signUpFaults.storeFails || !SomeInputMatches(matches, e.hashes)
  {
    hide Run, Successes, Unused, RowCount, RecoveryOver;
    var t := Run(matches, events);
    RunSound(matches, events);
    UnusedBounded(t.rows, e.id);
    UnusedAppended(t.rows, e.id, e.hashes, e.id);
    assert Unused(t.rows, e.id) == [] && [] + e.hashes == e.hashes;
    OneMore(matches, events, e, e.id);
    RecoveryOverIff(matches, events + [e], e.id);
  }
}
