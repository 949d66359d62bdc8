/** Peer identifiers and the errors of the send path. */
module PeerLink {
  import opened Wrappers
  import Text

  datatype CounterKey = CounterKey(ski: string, counter: int)

  function NormalizeSki(ski: string): string {
    Text.Lower(Text.Strip(Text.Without(Text.Without(ski, ':'), ' ')))
  }

  /** No colon, no blank, no outer whitespace, no capitals. */
  predicate IsNormalSki(ski: string) {
    ':' !in ski && ' ' !in ski && Text.Trimmed(ski) && Text.IsLower(ski)
  }

  lemma NormalizeIsNormal(ski: string)
    ensures IsNormalSki(NormalizeSki(ski))
  {
    hide Text.Without, Text.Strip;
    var stripped := Text.Strip(Text.Without(Text.Without(ski, ':'), ' '));
    assert ':' !in stripped && ' ' !in stripped;
    LowerAddsNeither(stripped);
  }

  lemma LowerAddsNeither(s: string)
    requires ':' !in s && ' ' !in s && Text.Trimmed(s)
    ensures IsNormalSki(Text.Lower(s))
  {
    forall i | 0 <= i < |s| ensures Text.LowerChar(s[i]) != ':' && Text.LowerChar(s[i]) != ' ' {
      assert s[i] in s;
    }
  }

  lemma NormalizeFixesExactlyNormal(ski: string)
    ensures NormalizeSki(ski) == ski <==> IsNormalSki(ski)
  {
    NormalizeIsNormal(ski);
    if IsNormalSki(ski) {
      Text.LowerOfLower(ski);
    }
  }

  lemma NormalizeIdempotent(ski: string)
    ensures NormalizeSki(NormalizeSki(ski)) == NormalizeSki(ski)
  {
    NormalizeIsNormal(ski);
    NormalizeFixesExactlyNormal(NormalizeSki(ski));
  }

  // ---- Transient errors --------------------------------------------------------------

  const TRANSIENT_FRAGMENTS: seq<string> := [
    "has not completed loadcontrol discovery yet",
    "is not currently connected",
    "peer ended ship session",
    "websocket closed by remote: code=4200",
    "reason='shutdown'"
  ]

  predicate IsTransient(error: string) {
    var normalized := Text.Lower(Text.Strip(error));
    normalized != "" && exists i :: 0 <= i < |TRANSIENT_FRAGMENTS| && Text.Contains(normalized, TRANSIENT_FRAGMENTS[i])
  }

  function NotConnectedError(peerSki: string): string {
    "peer " + peerSki + " is not currently connected"
  }

  lemma LowerOfConcat(a: string, b: string)
    ensures Text.Lower(a + b) == Text.Lower(a) + Text.Lower(b)
  {
  }

  lemma FragmentMakesTransient(error: string, before: string, i: nat, after: string)
    requires Text.Trimmed(error) && i < |TRANSIENT_FRAGMENTS|
    requires Text.Lower(error) == before + TRANSIENT_FRAGMENTS[i] + after != ""
    ensures IsTransient(error)
  {
    Text.ContainsSuffix(before, TRANSIENT_FRAGMENTS[i], after);
  }

  /** The error the runtime itself raises when no session to the peer is open leaves the delivery
      pending, whatever the peer is called. */
  lemma NotConnectedIsTransient(peerSki: string)
    ensures IsTransient(NotConnectedError(peerSki))
  {
    hide IsTransient;
    var error := NotConnectedError(peerSki);
    var front, part := "peer " + peerSki + " ", "is not currently connected";
    assert error == front + part;
    assert error[0] == 'p' && error[|error| - 1] == 'd';
    LowerOfConcat(front, part);
    Text.LowerOfLower(part);
    assert Text.Lower(error) == Text.Lower(front) + part + "";
    FragmentMakesTransient(error, Text.Lower(front), 1, "");
  }

  function KeyOf(ski: string, counter: Option<int>): Option<CounterKey> {
    if counter.Some? then Some(CounterKey(NormalizeSki(ski), counter.value)) else None
  }

  lemma KeyOfNormalized(ski: string, counter: Option<int>)
    ensures KeyOf(NormalizeSki(ski), counter) == KeyOf(ski, counter)
  {
    NormalizeIdempotent(ski);
  }

  /** Why a write was rejected: the description, else the error number; never empty. */
  function RejectReason(description: string, errorNumber: Option<int>): (r: string)
    ensures r != "" && (description != "" ==> r == description)
    ensures description == "" && errorNumber.Some? && errorNumber.value != 0 ==> r == Text.DecimalInt(errorNumber.value)
  {
    if description != "" then description
    else if errorNumber.Some? && errorNumber.value != 0 then Text.DecimalInt(errorNumber.value)
    else "rejected"
  }

  /** A target in stored form (trimmed, lower case) is matched by the normalized SKI of some peer
      exactly when it is already normal; one that still carries a colon or a blank never is. */
  lemma RetryReachesExactlyNormalTargets(target: string)
    requires Text.Trimmed(target) && Text.IsLower(target)
    ensures (exists peer :: NormalizeSki(peer) == target) <==> ':' !in target && ' ' !in target
  {
    hide NormalizeSki, Text.Trimmed, Text.IsLower;
    NormalizeFixesExactlyNormal(target);
    if peer :| NormalizeSki(peer) == target {
      NormalizeIsNormal(peer);
    }
  }
}
