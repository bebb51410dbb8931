/** Hosted subdomains: names, the claims table, and how a publication is
    created around a claim. */
module Claims {
  import opened Decimals
  import opened WhiteSpace
  import opened Wrappers

  const MAX_LABEL_LEN: nat := 63
  const MAX_SUFFIX: nat := 99
  const RESERVED_NAMES: seq<string> := [
    "www", "api", "static", "img", "cdn", "assets", "mail", "smtp", "imap", "admin", "app",
    "login", "oauth", "auth", "feed", "feeds", "rss", "m", "dev", "staging", "status", "help",
    "docs", "blog", "about", "settings", "write", "at", "did", "plc", "eaten", "eaten-at", "ns",
    "ns1", "ns2", "mx", "ftp", "git", "root"]

  // ---- names ----

  function Lower(c: char): char {
    if 'A' <= c <= 'Z' then (c as int + 32) as char else c
  }

  function LowerAll(s: string): string {
    seq(|s|, i requires 0 <= i < |s| => Lower(s[i]))
  }

  predicate LowerOrDigit(c: char) {
    'a' <= c <= 'z' || '0' <= c <= '9'
  }

  function TrimStart(s: string, drop: char -> bool): string {
    if s != "" && drop(s[0]) then TrimStart(s[1..], drop) else s
  }

  function TrimEnd(s: string, drop: char -> bool): string {
    if s != "" && drop(s[|s| - 1]) then TrimEnd(s[..|s| - 1], drop) else s
  }

  function Trim(s: string, drop: char -> bool): string {
    TrimEnd(TrimStart(s, drop), drop)
  }

  predicate Hyphen(c: char) {
    c == '-'
  }

  /** A DNS label as this site allows them. */
  predicate WellFormed(name: string) {
    && 0 < |name| <= MAX_LABEL_LEN
    && (forall c | c in name :: LowerOrDigit(c) || c == '-')
    && name[0] != '-' && name[|name| - 1] != '-'
  }

  datatype Checked = Valid(name: string) | Invalid | Reserved

  function ValidateName(raw: string): (r: Checked)
    ensures r.Valid? ==> WellFormed(r.name)
  {
    var name := LowerAll(Trim(raw, IsSpace));
    if !WellFormed(name) then Invalid
    else if name in RESERVED_NAMES then Reserved
    else Valid(name)
  }

  lemma {:induction false} TrimEndShape(s: string, drop: char -> bool)
    ensures TrimEnd(s, drop) <= s
    ensures TrimEnd(s, drop) != "" ==> !drop(TrimEnd(s, drop)[|TrimEnd(s, drop)| - 1])
    ensures s != "" && !drop(s[0]) ==> TrimEnd(s, drop) != ""
    decreases s
  {
    if s != "" && drop(s[|s| - 1]) {
      TrimEndShape(s[..|s| - 1], drop);
    }
  }

  lemma {:induction false} TrimStartShape(s: string, drop: char -> bool)
    ensures TrimStart(s, drop) != "" ==> !drop(TrimStart(s, drop)[0])
    ensures |TrimStart(s, drop)| <= |s| && forall c | c in TrimStart(s, drop) :: c in s
  {
    if s != "" && drop(s[0]) {
      TrimStartShape(s[1..], drop);
    }
  }

  lemma TrimNothing(s: string, drop: char -> bool)
    requires s != "" && !drop(s[0]) && !drop(s[|s| - 1])
    ensures Trim(s, drop) == s
  {
  }

  lemma NotSpace(c: char)
    requires LowerOrDigit(c) || c == '-'
    ensures !IsSpace(c)
  {
  }

  /** A well-formed name is read as itself: it is taken or refused as
      reserved, never invalid. */
  lemma WellFormedIsValid(name: string)
    requires WellFormed(name)
    ensures ValidateName(name) == if name in RESERVED_NAMES then Reserved else Valid(name)
  {
    assert name[0] in name && name[|name| - 1] in name;
    NotSpace(name[0]);
    NotSpace(name[|name| - 1]);
    TrimNothing(name, IsSpace);
    forall i | 0 <= i < |name|
      ensures Lower(name[i]) == name[i]
    {
      assert name[i] in name;
    }
    assert LowerAll(name) == name;
  }

  function Relabel(c: char): char {
    if LowerOrDigit(Lower(c)) then Lower(c) else '-'
  }

  function RelabelAll(s: string): string {
    seq(|s|, i requires 0 <= i < |s| => Relabel(s[i]))
  }

  function UpTo(s: string, stop: char): string {
    if s == "" || s[0] == stop then "" else [s[0]] + UpTo(s[1..], stop)
  }

  function DropPrefixes(s: string, prefix: string): string
    requires prefix != ""
  {
    if prefix <= s then DropPrefixes(s[|prefix|..], prefix) else s
  }

  function NoColons(s: string): string {
    seq(|s|, i requires 0 <= i < |s| => if s[i] == ':' then '-' else s[i])
  }

  /** The label suggested for an account: from its handle, or its DID. */
  function SuggestName(did: string, handle: Option<string>): string {
    var raw := match handle
      case Some(h) => UpTo(h, '.')
      case None => NoColons(DropPrefixes(did, "did:"));
    var name := RelabelAll(raw);
    var cut := if |name| > MAX_LABEL_LEN then name[..MAX_LABEL_LEN] else name;
    var trimmed := Trim(cut, Hyphen);
    if trimmed == "" then "author" else trimmed
  }

  /** Whatever the handle or the DID holds, the suggestion is well formed. */
  lemma SuggestionIsWellFormed(did: string, handle: Option<string>)
    ensures WellFormed(SuggestName(did, handle))
  {
    var raw := match handle
      case Some(h) => UpTo(h, '.')
      case None => NoColons(DropPrefixes(did, "did:"));
    var name := RelabelAll(raw);
    var cut := if |name| > MAX_LABEL_LEN then name[..MAX_LABEL_LEN] else name;
    var start := TrimStart(cut, Hyphen);
    TrimStartShape(cut, Hyphen);
    TrimEndShape(start, Hyphen);
    var trimmed := TrimEnd(start, Hyphen);
    forall c | c in trimmed
      ensures LowerOrDigit(c) || c == '-'
    {
      assert c in start && c in cut && c in name;
    }
  }

  /** The label tried in round `n`: numbered from the second on, and
      shortened to fit. */
  function Candidate(base: string, n: nat): string {
    if n == 1 then base
    else
      var suffix := "-" + Decimal(n);
      var room := if |suffix| <= MAX_LABEL_LEN then MAX_LABEL_LEN - |suffix| else 0;
      TrimEnd(if |base| > room then base[..room] else base, Hyphen) + suffix
  }

  lemma CandidateIsWellFormed(base: string, n: nat)
    requires WellFormed(base) && 1 <= n <= MAX_SUFFIX
    ensures WellFormed(Candidate(base, n))
  {
    if n > 1 {
      DecimalIsDigits(n);
      var suffix := "-" + Decimal(n);
      var room := MAX_LABEL_LEN - |suffix|;
      var stem := if |base| > room then base[..room] else base;
      TrimEndShape(stem, Hyphen);
      var trimmed := TrimEnd(stem, Hyphen);
      var name := trimmed + suffix;
      assert trimmed[0] == base[0] && name[0] == base[0];
      assert name[|name| - 1] == Decimal(n)[|Decimal(n)| - 1];
      forall c | c in name
        ensures LowerOrDigit(c) || c == '-'
      {
        if c in trimmed {
          assert c in stem && c in base;
        } else {
          assert c == '-' || c in Decimal(n);
        }
      }
    }
  }

  // ---- the table ----

  datatype Row = Row(uri: string, did: string, createdAt: int)

  /** Rows by name. */
  type Table = map<string, Row>

  /** Where the database fails, if it does. */
  datatype Fault = NoFault | AtSelect | AtDelete | AtInsert

  datatype Outcome = Claimed | Taken | ReservedName | InvalidName | DbFailed

  function DeleteUri(t: Table, uri: string): Table {
    map n | n in t && t[n].uri != uri :: t[n]
  }

  /** `INSERT OR REPLACE` under both keys: any row with the same name, or
      the same publication, goes. */
  function InsertOrReplace(t: Table, name: string, row: Row): Table {
    (map n | n in t && n != name && t[n].uri != row.uri :: t[n])[name := row]
  }

  function ClaimStep(t: Table, raw: string, uri: string, did: string, now: int, fault: Fault): (Table, Outcome) {
    match ValidateName(raw)
    case Invalid => (t, InvalidName)
    case Reserved => (t, ReservedName)
    case Valid(name) => ClaimName(t, name, uri, did, now, fault)
  }

  function ClaimName(t: Table, name: string, uri: string, did: string, now: int, fault: Fault): (Table, Outcome) {
    if fault.AtSelect? then (t, DbFailed)
    else if name in t && t[name].uri != uri then (t, Taken)
    else if fault.AtDelete? then (t, DbFailed)
    else if fault.AtInsert? then (DeleteUri(t, uri), DbFailed)
    else (InsertOrReplace(DeleteUri(t, uri), name, Row(uri, did, now)), Claimed)
  }

  class ClaimsTable {
    var rows: Table

    constructor ()
      ensures rows == map[]
    {
      rows := map[];
    }

    method Claim(raw: string, uri: string, did: string, now: int, fault: Fault) returns (outcome: Outcome)
      modifies this
      ensures (rows, outcome) == ClaimStep(old(rows), raw, uri, did, now, fault)
    {
      var checked := ValidateName(raw);
      if checked.Invalid? {
        return InvalidName;
      }
      if checked.Reserved? {
        return ReservedName;
      }
      var name := checked.name;
      if fault.AtSelect? {
        return DbFailed;
      }
      if name in rows && rows[name].uri != uri {
        return Taken;
      }
      if fault.AtDelete? {
        return DbFailed;
      }
      rows := DeleteUri(rows, uri);
      if fault.AtInsert? {
        return DbFailed;
      }
      rows := InsertOrReplace(rows, name, Row(uri, did, now));
      outcome := Claimed;
    }

    method Release(uri: string, fails: bool) returns (ok: bool)
      modifies this
      ensures ok == !fails && rows == if fails then old(rows) else DeleteUri(old(rows), uri)
    {
      if !fails {
        rows := DeleteUri(rows, uri);
      }
      ok := !fails;
    }
  }

  /** One name a publication, one publication a name. */
  ghost predicate OneToOne(t: Table) {
    forall m, n | m in t && n in t && t[m].uri == t[n].uri :: m == n
  }

  predicate Claimable(name: string) {
    ValidateName(name) == Valid(name)
  }

  ghost predicate NamesOk(names: set<string>) {
    forall n | n in names :: Claimable(n)
  }

  ghost predicate TableOk(t: Table) {
    OneToOne(t) && NamesOk(t.Keys)
  }

  /** What another publication holds is what it held. */
  ghost predicate OthersKept(t: Table, t': Table, uri: string) {
    && (forall n | n in t && t[n].uri != uri :: n in t' && t'[n] == t[n])
    && (forall n | n in t' && t'[n].uri != uri :: n in t && t'[n] == t[n])
  }

  lemma ClaimNameKeepsTable(t: Table, name: string, uri: string, did: string, now: int, fault: Fault)
    requires TableOk(t) && Claimable(name)
    ensures var (t', outcome) := ClaimName(t, name, uri, did, now, fault);
      && TableOk(t') && OthersKept(t, t', uri)
      && (outcome.Claimed? ==> t' == DeleteUri(t, uri)[name := Row(uri, did, now)])
  {
    ReleaseKeepsTable(t, uri);
    NamesOkWith(t.Keys, ClaimName(t, name, uri, did, now, fault).0.Keys, name);
    if ClaimName(t, name, uri, did, now, fault).1.Claimed? {
      InsertReplacesNothing(t, name, Row(uri, did, now));
      InsertKeepsRows(t, DeleteUri(t, uri), name, Row(uri, did, now));
    }
  }

  lemma NamesOkWith(names: set<string>, more: set<string>, name: string)
    requires NamesOk(names) && Claimable(name) && more <= names + {name}
    ensures NamesOk(more)
  {
  }

  lemma InsertKeepsRows(t: Table, d: Table, name: string, row: Row)
    requires OneToOne(d) && OthersKept(t, d, row.uri)
    requires name !in d && forall n | n in d :: d[n].uri != row.uri
    ensures OneToOne(d[name := row]) && OthersKept(t, d[name := row], row.uri)
  {
  }

  /** After the delete no row shares the name or the publication. */
  lemma InsertReplacesNothing(t: Table, name: string, row: Row)
    requires OneToOne(t) && (name in t ==> t[name].uri == row.uri)
    ensures InsertOrReplace(DeleteUri(t, row.uri), name, row) == DeleteUri(t, row.uri)[name := row]
  {
  }

  lemma ValidIsClaimable(raw: string)
    ensures ValidateName(raw).Valid? ==> Claimable(ValidateName(raw).name)
  {
    if ValidateName(raw).Valid? {
      WellFormedIsValid(ValidateName(raw).name);
    }
  }

  /** A claim, whatever comes of it, keeps the table one-to-one and every
      other publication's row; the replacing insert replaces nothing. */
  lemma ClaimKeepsTable(t: Table, raw: string, uri: string, did: string, now: int, fault: Fault)
    requires TableOk(t)
    ensures var (t', outcome) := ClaimStep(t, raw, uri, did, now, fault);
      && TableOk(t') && OthersKept(t, t', uri)
      && (outcome.Claimed? ==>
            ValidateName(raw).Valid? && t' == DeleteUri(t, uri)[ValidateName(raw).name := Row(uri, did, now)])
  {
    var checked := ValidateName(raw);
    if checked.Valid? {
      ValidIsClaimable(raw);
      ClaimNameKeepsTable(t, checked.name, uri, did, now, fault);
    }
  }

  lemma ReleaseKeepsTable(t: Table, uri: string)
    requires TableOk(t)
    ensures TableOk(DeleteUri(t, uri)) && OthersKept(t, DeleteUri(t, uri), uri)
    ensures forall n | n in DeleteUri(t, uri) :: DeleteUri(t, uri)[n].uri != uri
  {
  }
}
