/**
 * The column-mapping step of an import: guessing which spreadsheet header
 * holds each field, refusing a mapping without the three required columns,
 * and loading a saved mapping.
 *
 * A mapping is a record from field key (`dateColumn`, `bankAccount`, ...) to
 * header name; a key that is absent reads as the empty string, which every
 * consumer treats as "not mapped".
 */
module ColumnMapper {
  import opened Types

  datatype SourceType = BankSource | GLSource

  // ---------------------------------------------------------------------
  // Case-insensitive comparison
  // ---------------------------------------------------------------------

  /** `toLowerCase` on one character (ASCII letters). */
  function LowerChar(c: char): char
  {
    if 'A' <= c <= 'Z' then (c as int + 32) as char else c
  }

  function Lower(s: string): (r: string)
    ensures |r| == |s|
    ensures forall i :: 0 <= i < |s| ==> r[i] == LowerChar(s[i])
  {
    seq(|s|, i requires 0 <= i < |s| => LowerChar(s[i]))
  }

  /** `s.includes(t)`: `t` occurs in `s` at some position (the empty string occurs everywhere). */
  predicate Contains(s: string, t: string)
  {
    exists i :: 0 <= i <= |s| - |t| && OccursAt(s, t, i)
  }

  predicate OccursAt(s: string, t: string, i: int)
  {
    0 <= i <= |s| - |t| && s[i..i + |t|] == t
  }

  /** The test the first phase applies to a header, or the one the second phase applies. */
  predicate Hits(header: string, name: string, exact: bool)
  {
    if exact then Lower(header) == Lower(name) else Contains(Lower(header), Lower(name))
  }

  /** An equal header also contains the name. */
  lemma ExactHitIsPartialHit(header: string, name: string)
    requires Hits(header, name, true)
    ensures Hits(header, name, false)
  {
    var h := Lower(header);
    assert h[0..|h|] == h;
    assert OccursAt(h, Lower(name), 0);
  }

  /** A header holding a non-empty name is itself non-empty. */
  lemma HitOfNonEmptyName(header: string, name: string, exact: bool)
    requires name != "" && Hits(header, name, exact)
    ensures header != ""
  {
    if !exact {
      var i :| OccursAt(Lower(header), Lower(name), i);
    }
  }

  // ---------------------------------------------------------------------
  // findBestMatch
  // ---------------------------------------------------------------------

  /** `availableHeaders.find(...)`: the first header the test accepts. */
  function FirstHit(headers: seq<string>, name: string, exact: bool): (r: Option<string>)
    ensures r.None? <==> forall j :: 0 <= j < |headers| ==> !Hits(headers[j], name, exact)
    ensures r.Some? ==> exists j :: 0 <= j < |headers| && headers[j] == r.value && Hits(r.value, name, exact) &&
                                    forall m :: 0 <= m < j ==> !Hits(headers[m], name, exact)
  {
    if headers == [] then None
    else if Hits(headers[0], name, exact) then Some(headers[0])
    else
      var r := FirstHit(headers[1..], name, exact);
      if r.Some? then
        var j :| 0 <= j < |headers[1..]| && headers[1..][j] == r.value && Hits(r.value, name, exact) &&
                 forall m :: 0 <= m < j ==> !Hits(headers[1..][m], name, exact);
        assert headers[j + 1] == r.value;
        r
      else r
  }

  /** The header a name selects in one phase: its first hit, unless that is the (falsy) empty header. */
  predicate Selects(headers: seq<string>, name: string, exact: bool)
  {
    var m := FirstHit(headers, name, exact);
    m.Some? && m.value != ""
  }

  /**
   * One `for (const name of possibleNames)` loop: the first name that
   * selects a header returns it; None when the loop falls through.
   */
  function Phase(names: seq<string>, headers: seq<string>, exact: bool): (r: Option<string>)
    ensures r.Some? ==> r.value in headers && r.value != ""
    ensures r.Some? ==> exists k :: 0 <= k < |names| && Hits(r.value, names[k], exact)
    ensures r.None? <==> forall k :: 0 <= k < |names| ==> !Selects(headers, names[k], exact)
  {
    if names == [] then None
    else if Selects(headers, names[0], exact) then FirstHit(headers, names[0], exact)
    else
      var r := Phase(names[1..], headers, exact);
      assert forall k :: 1 <= k < |names| ==> names[k] == names[1..][k - 1];
      r
  }

  /** `findBestMatch`: an exact (case-insensitive) match first, then a substring match, else `''`. */
  function FindBestMatch(names: seq<string>, headers: seq<string>): (r: string)
    ensures r == "" || r in headers
  {
    match Phase(names, headers, true)
    case Some(h) => h
    case None =>
      match Phase(names, headers, false)
      case Some(h) => h
      case None => ""
  }

  /** The phase result is the first hit of the earliest name that selects a header. */
  lemma {:induction false} PhaseIsEarliestName(names: seq<string>, headers: seq<string>, exact: bool, i: nat)
    requires i < |names| && Selects(headers, names[i], exact)
    requires forall k :: 0 <= k < i ==> !Selects(headers, names[k], exact)
    ensures Phase(names, headers, exact) == FirstHit(headers, names[i], exact)
  {
    if i > 0 {
      assert forall k :: 0 <= k < i - 1 ==> names[1..][k] == names[k + 1];
      PhaseIsEarliestName(names[1..], headers, exact, i - 1);
    }
  }

  /**
   * Exact matches win: when the non-empty header `headers[j]` equals
   * `names[i]` ignoring case, no earlier name has a non-empty exact match and
   * no earlier header equals `names[i]`, the result is `headers[j]`.
   */
  lemma ExactMatchWins(names: seq<string>, headers: seq<string>, i: nat, j: nat)
    requires i < |names| && j < |headers|
    requires headers[j] != "" && Hits(headers[j], names[i], true)
    requires forall m :: 0 <= m < j ==> !Hits(headers[m], names[i], true)
    requires forall k, m :: 0 <= k < i && 0 <= m < |headers| && headers[m] != "" ==> !Hits(headers[m], names[k], true)
    ensures FindBestMatch(names, headers) == headers[j]
  {
    var h := FirstHit(headers, names[i], true);
    assert h == Some(headers[j]) by {
      var j' :| 0 <= j' < |headers| && headers[j'] == h.value && Hits(h.value, names[i], true) &&
                forall m :: 0 <= m < j' ==> !Hits(headers[m], names[i], true);
      assert j' == j;
    }
    assert forall k :: 0 <= k < i ==> !Selects(headers, names[k], true);
    PhaseIsEarliestName(names, headers, true, i);
  }

  /**
   * Substring matches are used only when no name has a non-empty exact
   * match; a non-empty result then contains one of the names, ignoring case.
   */
  lemma PartialOnlyWithoutExact(names: seq<string>, headers: seq<string>)
    requires forall k :: 0 <= k < |names| ==> !Selects(headers, names[k], true)
    ensures FindBestMatch(names, headers) == if Phase(names, headers, false).Some? then Phase(names, headers, false).value else ""
    ensures FindBestMatch(names, headers) != "" ==>
              exists k :: 0 <= k < |names| && Contains(Lower(FindBestMatch(names, headers)), Lower(names[k]))
  {
  }

  /** A name selects nothing in the second phase exactly when no header contains it (non-empty names). */
  lemma SelectsPartialIff(headers: seq<string>, name: string)
    requires name != ""
    ensures Selects(headers, name, false) <==> exists j :: 0 <= j < |headers| && Hits(headers[j], name, false)
  {
    var m := FirstHit(headers, name, false);
    if m.Some? {
      var j :| 0 <= j < |headers| && headers[j] == m.value && Hits(m.value, name, false) &&
               forall m' :: 0 <= m' < j ==> !Hits(headers[m'], name, false);
      HitOfNonEmptyName(headers[j], name, false);
    }
  }

  /**
   * With non-empty names (as every built-in list is), the result is `''`
   * exactly when no header contains any of the names, ignoring case.
   */
  lemma EmptyIffNoHeaderContainsAName(names: seq<string>, headers: seq<string>)
    requires forall k :: 0 <= k < |names| ==> names[k] != ""
    ensures FindBestMatch(names, headers) == "" <==>
            forall k, j :: 0 <= k < |names| && 0 <= j < |headers| ==> !Contains(Lower(headers[j]), Lower(names[k]))
  {
    var p := Phase(names, headers, false);
    if FindBestMatch(names, headers) == "" {
      forall k, j | 0 <= k < |names| && 0 <= j < |headers| ensures !Contains(Lower(headers[j]), Lower(names[k])) {
        SelectsPartialIff(headers, names[k]);
      }
    } else if forall k, j :: 0 <= k < |names| && 0 <= j < |headers| ==> !Contains(Lower(headers[j]), Lower(names[k])) {
      forall k | 0 <= k < |names| ensures !Selects(headers, names[k], true) {
        var m := FirstHit(headers, names[k], true);
        if m.Some? {
          var j :| 0 <= j < |headers| && headers[j] == m.value && Hits(m.value, names[k], true) &&
                   forall m' :: 0 <= m' < j ==> !Hits(headers[m'], names[k], true);
          ExactHitIsPartialHit(headers[j], names[k]);
        }
      }
    }
  }

  /**
   * The falsy-header quirk: an empty name's first hit is the first header,
   * and when that header is empty the loop moves on, so a later header that
   * does contain the name is never returned.
   */
  lemma EmptyNameMissesLaterHeader()
    ensures Contains(Lower("Date"), Lower(""))
    ensures FindBestMatch([""], ["", "Date"]) == ""
  {
    assert OccursAt(Lower("Date"), Lower(""), 0);
    assert Hits("", "", true);
    assert FirstHit(["", "Date"], "", true) == Some("");
    assert Hits("", "", false) by {
      assert OccursAt(Lower(""), Lower(""), 0);
    }
    assert FirstHit(["", "Date"], "", false) == Some("");
  }

  // ---------------------------------------------------------------------
  // The suggestions, the required-column check and saved mappings
  // ---------------------------------------------------------------------

  /** The optional columns each kind of file offers. */
  function AdditionalFields(st: SourceType): seq<string>
  {
    if st == BankSource then ["bankAccount", "checkNumber"]
    else ["glAccount", "reference", "department", "class"]
  }

  const RequiredFields: set<string> := {"dateColumn", "amountColumn", "descriptionColumn"}

  /** The header names tried for each field, in order of preference. */
  function CandidateNames(field: string): seq<string>
  {
    match field
    case "dateColumn" => ["date", "transaction date", "trans date", "post date"]
    case "amountColumn" => ["amount", "sum", "transaction amount", "debit", "credit"]
    case "descriptionColumn" => ["description", "memo", "narrative", "details", "note"]
    case "bankAccount" => ["account", "bank account", "acct"]
    case "checkNumber" => ["check", "check no", "check number", "cheque"]
    case "glAccount" => ["account", "gl account", "gl", "account code"]
    case "reference" => ["reference", "ref", "ref no", "transaction id"]
    case "department" => ["department", "dept", "cost center"]
    case "class" => ["class", "category", "segment"]
    case _ => []
  }

  /** The keys a mapping for this kind of file carries. */
  function MappingKeys(st: SourceType): (r: set<string>)
    ensures RequiredFields <= r
    ensures forall i :: 0 <= i < |AdditionalFields(st)| ==> AdditionalFields(st)[i] in r
  {
    RequiredFields + set i | 0 <= i < |AdditionalFields(st)| :: AdditionalFields(st)[i]
  }

  /**
   * The suggested mapping built when the headers arrive: every field of this
   * kind of file, mapped to its best-matching header or to `''`.
   */
  function Suggestions(headers: seq<string>, st: SourceType): (r: map<string, string>)
    ensures r.Keys == MappingKeys(st)
    ensures forall k :: k in r ==> r[k] == "" || r[k] in headers
  {
    map k | k in MappingKeys(st) :: FindBestMatch(CandidateNames(k), headers)
  }

  /** A mapping entry as the component reads it: an absent key is the empty string. */
  function Field(m: map<string, string>, key: string): string
  {
    if key in m then m[key] else ""
  }

  /** The three columns the import cannot do without are all chosen. */
  predicate HasRequiredColumns(m: map<string, string>)
  {
    Field(m, "dateColumn") != "" && Field(m, "amountColumn") != "" && Field(m, "descriptionColumn") != ""
  }

  function SourceTypeName(st: SourceType): string
  {
    if st == BankSource then "bank" else "gl"
  }

  /**
   * `handleSubmit`: None (an alert, no callback) when a required column is
   * missing; otherwise the full mapping passed on, with the file name and
   * source type first and the mapping's own entries spread over them.
   */
  function Submit(m: map<string, string>, fileName: string, st: SourceType): (r: Option<map<string, string>>)
    ensures r.None? <==> Field(m, "dateColumn") == "" || Field(m, "amountColumn") == "" || Field(m, "descriptionColumn") == ""
    ensures r.Some? ==> r.value.Keys == m.Keys + {"fileName", "sourceType"}
    ensures r.Some? ==> forall k :: k in m ==> r.value[k] == m[k]
    ensures r.Some? && "fileName" !in m ==> r.value["fileName"] == fileName
    ensures r.Some? && "sourceType" !in m ==> r.value["sourceType"] == SourceTypeName(st)
  {
    if !HasRequiredColumns(m) then None
    else Some(map["fileName" := fileName, "sourceType" := SourceTypeName(st)] + m)
  }

  /**
   * `loadSavedMapping`: the three required columns and this kind of file's
   * optional columns, each copied from the saved mapping or `''` when it has
   * none; any other saved entry is dropped.
   */
  function LoadSavedMapping(saved: map<string, string>, st: SourceType): (r: map<string, string>)
    ensures r.Keys == MappingKeys(st)
    ensures forall k :: k in r ==> r[k] == Field(saved, k)
  {
    map k | k in MappingKeys(st) :: Field(saved, k)
  }

  /**
   * Loading a saved mapping and submitting it goes through exactly when the
   * saved mapping names all three required columns, and passes on the saved
   * columns of this kind of file.
   */
  lemma LoadThenSubmit(saved: map<string, string>, fileName: string, st: SourceType)
    ensures var r := Submit(LoadSavedMapping(saved, st), fileName, st);
            && (r.Some? <==> HasRequiredColumns(saved))
            && (r.Some? ==> forall k :: k in MappingKeys(st) ==> r.value[k] == Field(saved, k))
            && (r.Some? ==> r.value["fileName"] == fileName && r.value["sourceType"] == SourceTypeName(st))
  {
    var m := LoadSavedMapping(saved, st);
    assert "dateColumn" in m && "amountColumn" in m && "descriptionColumn" in m;
    assert "fileName" !in MappingKeys(st) && "sourceType" !in MappingKeys(st);
  }
}
