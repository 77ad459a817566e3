/**
 The details a domain record may carry, by name. `LogRecord` keeps them as the
 record does, numbered; here the numbers are given their names, and which details
 read the operand words is the list of those that do not.
 */
module LogDetail {
  import L = LogRecord

  datatype Detail =
    | Nothing | Features | ReceivePosted | Refusal | Established | Received | Medium | Extent | Proven | Proved
    | Measured | Session | Exchange | Peer | Arena | Operation | Identity | Fingerprint | Reset | Delegated
    | Dialled | DialRoute | DialUnlearned | DialSegments | DialSequence | Onboarded | OnboardingPort
    | OnboardingHandshake | OnboardingEnded | OnboardingIncompatible | OnboardingRefused | OnboardingAlert
    | OnboardingBacklogged | OnboardingSuites | OnboardingGroups | OnboardingServed | OnboardingRequest
    | OnboardingThrottled | Adopted | AnchorFingerprint | OnboardingInstalled | Ownership | DelegatedAnchor
    | Published | DialRetry | ChannelHandshake | ChannelEnded | ChannelIncompatible | ChannelRefused
    | ChannelCertificate | ChannelAlert | ChannelBacklogged | ChannelFrames | RecordingResumed | RecordingFresh
    | ChannelShipping | ChannelAcked | Configured | ListensForNothing

  function Code(d: Detail): nat {
    match d
    case Nothing => 0 case Features => 1 case ReceivePosted => 2 case Refusal => 3 case Established => 4
    case Received => 5 case Medium => 6 case Extent => 7 case Proven => 8 case Proved => 9 case Measured => 10
    case Session => 11 case Exchange => 12 case Peer => 13 case Arena => 14 case Operation => 15
    case Identity => 16 case Fingerprint => 17 case Reset => 18 case Delegated => 19 case Dialled => 20
    case DialRoute => 21 case DialUnlearned => 22 case DialSegments => 23 case DialSequence => 24
    case Onboarded => 25 case OnboardingPort => 26 case OnboardingHandshake => 27 case OnboardingEnded => 28
    case OnboardingIncompatible => 29 case OnboardingRefused => 30 case OnboardingAlert => 31
    case OnboardingBacklogged => 32 case OnboardingSuites => 33 case OnboardingGroups => 34
    case OnboardingServed => 35 case OnboardingRequest => 36 case OnboardingThrottled => 37 case Adopted => 38
    case AnchorFingerprint => 39 case OnboardingInstalled => 40 case Ownership => 41 case DelegatedAnchor => 42
    case Published => 43 case DialRetry => 44 case ChannelHandshake => 45 case ChannelEnded => 46
    case ChannelIncompatible => 47 case ChannelRefused => 48 case ChannelCertificate => 49
    case ChannelAlert => 50 case ChannelBacklogged => 51 case ChannelFrames => 52 case RecordingResumed => 53
    case RecordingFresh => 54 case ChannelShipping => 55 case ChannelAcked => 56 case Configured => 57
    case ListensForNothing => 58
  }

  /** The details with fields of their own or none at all. */
  predicate LeavesOperands(d: Detail) {
    || d.Nothing? || d.Features? || d.ReceivePosted? || d.Refusal? || d.Established? || d.Received? || d.Medium?
    || d.ListensForNothing?
  }

  /** Every detail is numbered below the count and reads the operand words exactly
      when it is not on that list. */
  lemma DetailsReadAsListed(d: Detail)
    ensures Code(d) < L.DETAIL_COUNT && (L.ReadsOperands(Code(d)) <==> !LeavesOperands(d))
    ensures Code(d) == L.DETAIL_FEATURES <==> d.Features?
    ensures Code(d) == L.DETAIL_RECEIVE_POSTED <==> d.ReceivePosted?
    ensures Code(d) == L.DETAIL_REFUSAL <==> d.Refusal?
    ensures Code(d) == L.DETAIL_ESTABLISHED <==> d.Established?
    ensures Code(d) == L.DETAIL_RECEIVED <==> d.Received?
    ensures Code(d) == L.DETAIL_MEDIUM <==> d.Medium?
    ensures Code(d) == L.DETAIL_LISTENS_FOR_NOTHING <==> d.ListensForNothing?
  {
  }
}
