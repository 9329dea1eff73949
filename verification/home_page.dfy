/** The public home page: it validates the sheet, loads the certificates when
    the sheet is valid, and lists those matching a case-insensitive search.
    The page's state hooks become the fields of `HomePage`; `LoadData` runs
    one load to completion, given what each of its two requests produced. */
module HomePage {
  import opened Wrappers
  import opened JsStrings
  import opened JsArrays
  import opened CertificateTypes
  import opened GoogleSheets

  // ---------------------------------------------------------------------
  // Search
  // ---------------------------------------------------------------------

  /** A certificate matches a search term when the lower-cased term occurs in
      the lower-cased recipient name, course name or id. */
  predicate Matches(c: Certificate, term: string) {
    var t := Lower(term);
    Contains(Lower(c.recipientName), t) || Contains(Lower(c.courseName), t) || Contains(Lower(c.id), t)
  }

  /** The test of the search filter for one term. */
  function MatchesTerm(term: string): Certificate -> bool {
    c => Matches(c, term)
  }

  /** The listed certificates: exactly those that match, in loaded order,
      each as many times as it was loaded. */
  function SearchFilter(certs: seq<Certificate>, term: string): (shown: seq<Certificate>)
    ensures forall i :: 0 <= i < |shown| ==> shown[i] in certs && Matches(shown[i], term)
    ensures forall i :: 0 <= i < |certs| && Matches(certs[i], term) ==> certs[i] in shown
    ensures forall i :: 0 <= i < |certs| ==>
      multiset(shown)[certs[i]] == if Matches(certs[i], term) then multiset(certs)[certs[i]] else 0
    ensures IsSubsequence(shown, certs)
  {
    FilterCounts(certs, MatchesTerm(term));
    Filter(certs, MatchesTerm(term))
  }

  /** An empty search lists every certificate. */
  lemma EmptySearchShowsAll(certs: seq<Certificate>)
    ensures SearchFilter(certs, "") == certs
  {
    forall i | 0 <= i < |certs| ensures Matches(certs[i], "") {
      ContainsTrivial(Lower(certs[i].recipientName));
    }
  }

  /** The search ignores the case of the term. */
  lemma SearchIgnoresCase(certs: seq<Certificate>, term: string)
    ensures SearchFilter(certs, Lower(term)) == SearchFilter(certs, term)
  {
    LowerIdempotent(term);
    FilterAgrees(certs, MatchesTerm(Lower(term)), MatchesTerm(term));
  }

  /** Searching for a certificate's exact id lists it. */
  lemma SearchById(certs: seq<Certificate>, k: nat)
    requires k < |certs|
    ensures certs[k] in SearchFilter(certs, certs[k].id)
  {
    ContainsTrivial(Lower(certs[k].id));
  }

  /** Typing more narrows the list: the matches of a longer term that
      contains a shorter one are among the shorter term's matches, in the
      same order. */
  lemma LongerTermNarrows(certs: seq<Certificate>, term: string, longer: string)
    requires Contains(longer, term)
    ensures IsSubsequence(SearchFilter(certs, longer), SearchFilter(certs, term))
  {
    LowerKeepsContains(longer, term);
    forall i | 0 <= i < |certs| && Matches(certs[i], longer) ensures Matches(certs[i], term) {
      var c := certs[i];
      if Contains(Lower(c.recipientName), Lower(longer)) {
        ContainsTransitive(Lower(c.recipientName), Lower(longer), Lower(term));
      } else if Contains(Lower(c.courseName), Lower(longer)) {
        ContainsTransitive(Lower(c.courseName), Lower(longer), Lower(term));
      } else {
        ContainsTransitive(Lower(c.id), Lower(longer), Lower(term));
      }
    }
    FilterMonotone(certs, MatchesTerm(longer), MatchesTerm(term));
  }

  // ---------------------------------------------------------------------
  // Loading
  // ---------------------------------------------------------------------

  /** How an awaited call settled: with a value, or by throwing. */
  datatype Awaited<T> = Resolved(value: T) | Rejected

  const ConnectionError: string := "Failed to connect to Google Sheets"

  /** The status shown when a load throws. */
  const ConnectionFailure: SheetStatus := SheetStatus(false, Some(ConnectionError), None)

  /** A sheet that passes validation yields at least one certificate. */
  lemma ValidSheetHasCertificates(resp: Response, importedAt: string)
    requires ValidateSheetSetup(resp).isValid
    ensures |GetAllCertificates(resp, importedAt)| >= 1
  {
    ValidSheetSample(resp);
  }

  class HomePage {
    var certificates: seq<Certificate>
    var loading: bool
    var searchTerm: string
    var sheetStatus: Option<SheetStatus>

    /** Once a load has finished there is a status to show. */
    predicate Valid()
      reads this
    {
      loading || sheetStatus.Some?
    }

    /** The page as first rendered, before its first load. */
    constructor ()
      ensures certificates == [] && loading && searchTerm == "" && sheetStatus == None
      ensures Valid()
    {
      certificates := [];
      loading := true;
      searchTerm := "";
      sheetStatus := None;
    }

    /** The certificates listed under the current search. */
    function FilteredCertificates(): (shown: seq<Certificate>)
      reads this
      ensures forall i :: 0 <= i < |shown| ==> shown[i] in certificates && Matches(shown[i], searchTerm)
      ensures forall i :: 0 <= i < |certificates| && Matches(certificates[i], searchTerm) ==> certificates[i] in shown
      ensures forall i :: 0 <= i < |certificates| ==>
        multiset(shown)[certificates[i]]
          == if Matches(certificates[i], searchTerm) then multiset(certificates)[certificates[i]] else 0
      ensures IsSubsequence(shown, certificates)
    {
      SearchFilter(certificates, searchTerm)
    }

    /** The change handler of the search box. */
    method SetSearchTerm(value: string)
      requires Valid()
      modifies this
      ensures Valid()
      ensures searchTerm == value
      ensures certificates == old(certificates) && loading == old(loading) && sheetStatus == old(sheetStatus)
    {
      searchTerm := value;
    }

    /** `loadData`: the validation's status is shown; only a valid sheet
        replaces the certificates, with the listing of the second request;
        a throw from either call shows the connection failure and keeps the
        certificates; loading always ends. */
    method LoadData(validation: Awaited<Response>, listing: Awaited<Response>, importedAt: string)
      modifies this
      ensures Valid() && !loading
      ensures searchTerm == old(searchTerm)
      ensures match validation
        case Rejected => sheetStatus == Some(ConnectionFailure) && certificates == old(certificates)
        case Resolved(resp) =>
          var status := ValidateSheetSetup(resp);
          if !status.isValid then sheetStatus == Some(status) && certificates == old(certificates)
          else match listing
            case Rejected => sheetStatus == Some(ConnectionFailure) && certificates == old(certificates)
            case Resolved(listed) => sheetStatus == Some(status) && certificates == GetAllCertificates(listed, importedAt)
    {
      loading := true;
      match validation {
        case Rejected =>
          sheetStatus := Some(ConnectionFailure);
        case Resolved(resp) =>
          ShowStatus(ValidateSheetSetup(resp), listing, importedAt);
      }
      loading := false;
    }

    /** The rest of `loadData` once validation has returned `status`: the
        status is shown, and a valid sheet's listing replaces the
        certificates unless the listing throws. */
    method ShowStatus(status: SheetStatus, listing: Awaited<Response>, importedAt: string)
      modifies this
      ensures loading == old(loading) && searchTerm == old(searchTerm)
      ensures if !status.isValid then sheetStatus == Some(status) && certificates == old(certificates)
        else match listing
          case Rejected => sheetStatus == Some(ConnectionFailure) && certificates == old(certificates)
          case Resolved(listed) => sheetStatus == Some(status) && certificates == GetAllCertificates(listed, importedAt)
    {
      sheetStatus := Some(status);
      if status.isValid {
        match listing {
          case Rejected =>
            sheetStatus := Some(ConnectionFailure);
          case Resolved(listed) =>
            certificates := GetAllCertificates(listed, importedAt);
        }
      }
    }
  }

  /** When both requests see the same valid sheet, a load lists every data
      row of it. */
  method LoadSameSheet(page: HomePage, resp: Response, importedAt: string)
    requires ValidateSheetSetup(resp).isValid
    modifies page
    ensures page.sheetStatus == Some(ValidateSheetSetup(resp))
    ensures |page.certificates| == |SheetRows(resp)| >= 1
  {
    page.LoadData(Resolved(resp), Resolved(resp), importedAt);
    ValidSheetHasCertificates(resp, importedAt);
  }
}
