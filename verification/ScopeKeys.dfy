/** Service keys and scope keys: `service` and `service:capability`. */
module ScopeKeys {
  import opened Wrappers
  import opened Text

  const SERVICE_KEY_MAX_LEN: nat := 64
  const SCOPE_KEY_MAX_LEN: nat := 128

  datatype KeyError =
    | Empty
    | TooLong(max: nat, actual: nat)
    | InvalidCharset
    | MalformedSegments

  predicate SegmentByte(c: char) {
    'a' <= c <= 'z' || '0' <= c <= '9' || c == '_'
  }

  /** The fault of a segment, if any. */
  function SegmentFault(value: string, maxLen: nat): Option<KeyError> {
    if value == "" then Some(Empty)
    else if |value| > maxLen then Some(TooLong(maxLen, |value|))
    else if !(forall i :: 0 <= i < |value| ==> SegmentByte(value[i])) then Some(InvalidCharset)
    else None
  }

  predicate IsServiceKey(value: string) {
    SegmentFault(value, SERVICE_KEY_MAX_LEN).None?
  }

  /** Keys are their text. The source builds one only through `new`; what its type then
      guarantees is the predicate `IsServiceKey` or `IsScopeKey` here. */
  type ServiceKey = string
  type ScopeKey = string

  function NewServiceKey(value: string): Result<ServiceKey, KeyError> {
    match SegmentFault(value, SERVICE_KEY_MAX_LEN)
    case Some(fault) => Err(fault)
    case None => Ok(value)
  }

  function ScopeKeyFault(value: string): Option<KeyError> {
    if |value| > SCOPE_KEY_MAX_LEN then Some(TooLong(SCOPE_KEY_MAX_LEN, |value|))
    else
      var parts := Split(value, ':');
      if |parts| != 2 then Some(MalformedSegments)
      else
        match SegmentFault(parts[0], SERVICE_KEY_MAX_LEN)
        case Some(fault) => Some(fault)
        case None => SegmentFault(parts[1], SCOPE_KEY_MAX_LEN)
  }

  predicate IsScopeKey(value: string) {
    ScopeKeyFault(value).None?
  }

  function NewScopeKey(value: string): Result<ScopeKey, KeyError> {
    match ScopeKeyFault(value)
    case Some(fault) => Err(fault)
    case None => Ok(value)
  }

  function ServiceSegment(key: ScopeKey): string {
    Split(key, ':')[0]
  }

  /** The byte offset of the colon, which the source keeps beside the raw key. */
  function Colon(key: ScopeKey): nat {
    |ServiceSegment(key)|
  }

  function CapabilitySegment(key: ScopeKey): string
    requires Colon(key) < |key|
  {
    key[Colon(key) + 1..]
  }

  predicate IsOwnedBy(key: ScopeKey, service: ServiceKey) {
    ServiceSegment(key) == service
  }

  ghost predicate Segment(value: string, maxLen: nat) {
    && 0 < |value| <= maxLen
    && forall i :: 0 <= i < |value| ==> 'a' <= value[i] <= 'z' || '0' <= value[i] <= '9' || value[i] == '_'
  }

  ghost predicate TwoSegments(value: string, service: string, capability: string) {
    && value == service + ":" + capability
    && Segment(service, 64)
    && Segment(capability, 128)
  }

  /** A service key is one segment of at most 64 bytes; a bad one is empty, or too long, or has a
      byte that does not belong, reported in that order. */
  lemma ServiceKeyGrammar(value: string)
    ensures NewServiceKey(value) ==
            if Segment(value, 64) then Ok(value)
            else if value == "" then Err(Empty)
            else if |value| > 64 then Err(TooLong(64, |value|))
            else Err(InvalidCharset)
  {}

  lemma SegmentIff(value: string, maxLen: nat)
    ensures SegmentFault(value, maxLen).None? <==> Segment(value, maxLen)
  {}

  lemma SegmentIsColonFree(value: string, maxLen: nat)
    requires Segment(value, maxLen)
    ensures ':' !in value
  {}

  /** The parser accepts exactly the two-segment grammar within the length limit, and the
      two accessors, which cut the raw key at the colon, give the segments back. */
  lemma ScopeKeyGrammar(value: string)
    ensures NewScopeKey(value).Ok? <==>
            |value| <= 128 && exists s, c :: TwoSegments(value, s, c)
    ensures IsScopeKey(value) ==>
              && Colon(value) < |value|
              && value[..Colon(value)] == ServiceSegment(value)
              && TwoSegments(value, ServiceSegment(value), CapabilitySegment(value))
  {
    hide SegmentFault, Segment, Split;
    if |value| <= SCOPE_KEY_MAX_LEN && exists s, c :: TwoSegments(value, s, c) {
      var s, c :| TwoSegments(value, s, c);
      SegmentIff(s, 64);
      SegmentIff(c, 128);
      SegmentIsColonFree(s, SERVICE_KEY_MAX_LEN);
      SegmentIsColonFree(c, SCOPE_KEY_MAX_LEN);
      SplitHead(s, c, ':');
      SplitWhole(c, ':');
      assert s + [':'] + c == value;
      assert Split(value, ':') == [s, c];
    }
    if IsScopeKey(value) {
      var parts := Split(value, ':');
      JoinOfSplit(value, ':');
      SegmentIff(parts[0], 64);
      SegmentIff(parts[1], 128);
      assert Join(parts, ':') == parts[0] + [':'] + Join(parts[1..], ':');
      assert value == parts[0] + ":" + parts[1];
      assert CapabilitySegment(value) == parts[1];
      assert TwoSegments(value, parts[0], parts[1]);
    }
  }

  /** Which of the errors a refused scope key gets: length first, then the number of
      colons, then the service segment, then the capability segment. */
  lemma ScopeKeyErrorOrder(value: string, service: string, capability: string)
    ensures NewScopeKey(value).Err? && NewScopeKey(value).error == TooLong(128, |value|)
            <==> |value| > 128
    ensures NewScopeKey(value) == Err(MalformedSegments)
            <==> |value| <= 128 && multiset(value)[':'] != 1
    ensures |value| <= 128 && value == service + ":" + capability
            && ':' !in service && ':' !in capability ==>
              ScopeKeyFault(value) ==
              if NewServiceKey(service).Err? then Some(NewServiceKey(service).error)
              else SegmentFault(capability, 128)
  {
    hide Split;
    SplitCount(value, ':');
    if |value| <= SCOPE_KEY_MAX_LEN && |Split(value, ':')| == 2 {
      JoinOfSplit(value, ':');
      var parts := Split(value, ':');
      assert Join(parts, ':') == parts[0] + [':'] + Join(parts[1..], ':');
      assert |parts[1]| < |value|;
    }
    if |value| <= SCOPE_KEY_MAX_LEN && value == service + ":" + capability && ':' !in service && ':' !in capability {
      SegmentErrors(service, capability);
    }
  }

  lemma SegmentErrors(service: string, capability: string)
    requires ':' !in service && ':' !in capability
    requires |service + ":" + capability| <= SCOPE_KEY_MAX_LEN
    ensures ScopeKeyFault(service + ":" + capability) ==
            if NewServiceKey(service).Err? then Some(NewServiceKey(service).error)
            else SegmentFault(capability, SCOPE_KEY_MAX_LEN)
  {
    hide SegmentFault, Split;
    SplitHead(service, capability, ':');
    SplitWhole(capability, ':');
    assert service + [':'] + capability == service + ":" + capability;
  }
}
