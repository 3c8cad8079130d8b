# Verified model of the edustar CAS server

A Dafny model of the parts of this single sign-on server where the reasoning is hardest, with proofs that hold for every
input, every run and every interleaving. `dafny verify dfyconfig.toml` checks all of it.

**MD5 engine** (`Rfc1321`, `Md5Arithmetic`, `Md5Rounds`, `Md5Bytes`, `Md5Count`, `Md5`, `Md5Vectors`, `SineTable`).
`Rfc1321` is RFC 1321 as a function on byte sequences and 32-bit words; two digests worked out in full and the
definition of its table by sines pin it down. The engine is the mutable object of the source: four longs whose upper
halves fill with carries and sign bits, two counters, a buffer. Longs are 64-bit vectors; the counters are integers with
the wrap-around written out. `Update` and `Final` are proved against the function for every way of cutting a message.
The carry test of `md5Update` compares longs, so it does not see a carry out of 32 bits; `Md5Count` says exactly when
the length field is right all the same. `getMD5ofStr` makes one update, so it is always right for what it hashes, which
is the first `length()` bytes of the string, `length()` being a number of chars. A call that runs out of the bounds of
an array answers `false`.

**Ticket protocol** (`Policies`, `Tickets`, `TicketInvariants`, `TicketRuns`, `RegistryEquivalence`,
`ThrottledRegistries`, `TicketChains`, `TicketOutcomes`, `TicketAccounting`, `ThrottledGrants`, `UseRecords`, `LogOut`,
`SingleLogOut`, `BoundedUse`). Five operations over a forest of tickets, with the in-memory or the JPA registry. A step
happens at one clock instant; what the authentication manager, the services manager, `Service.matches` and the id
generators answer is part of the operation, so every theorem is about all their answers. `rank` numbers the ids in order
of issue; the code keeps no such numbers. Theorems about runs are about every run from the empty store, or from any
state where they say so. The theorems about runs ask that the clock does not go back and that issued ids are new, which
`TicketIds` shows of the generator for 2^63 calls in a row. `BoundedUse` splits validation and delegation into their
atomic steps and lets any number of threads interleave them.

**The same as objects** (`TicketObjects`, `CentralAuthentication`, `JpaRegistry`, `JpaAuthentication`). Ticket objects
with parent references, the in-memory registry, and the methods of `CentralAuthenticationServiceImpl`, each proved to
move the objects from one protocol state to the next; the row-by-row cascade of `JpaTicketRegistry` with its delegators,
proved to be the protocol's deletion and updates; and the same methods over that registry. `TicketObject` is
`AbstractTicket` and its two subclasses in one class, the fields of the subclass being one value.

**Services** (`ServiceStore`, `ServiceLookup`). The in-memory registry of services, whose `List.remove` compares
contents and ignores ids, the manager's cache over it, and the lookup through a tree set.

**Smaller algorithms** (`UrlParameters`, `OneName`, `SeveralNames`, `UrlEncoding`, `Redirect`, `TicketIds`, `Throttle`).
Removal of URL parameters, the redirect printer with the encoding of its values, ticket ids, and the login throttler.
`JavaInt`, `JavaStrings` and `Wrappers` serve all modules.

Where the code does not do what its comments or its intended use suggest, the model follows the code, and a lemma says
exactly when the two agree: `Md5Count.LengthExactly` (with `LengthBelow29` and `LengthOfShortUpdates`),
`Md5Engine.LastBlock`, `Policies.ThrottledRevives`, `RegistryEquivalence.WrongKind`,
`ThrottledRegistries.EquivalentExactly`, `TicketAccounting.SsoDisabledMark`, `ThrottledGrants.ThrottledExactly` and
`TooSoonExactly`, `ServiceStore.SaveAgrees`, `ServiceStore.DeleteAgrees`, `ServiceLookup.LookupOrderFree`,
`OneName.OneNameExactly`, `SeveralNames.SeveralNamesExactly`, `Redirect.EscapeStays` (the comment of the pattern speaks
of unprintable ASCII characters; its class ends at hexadecimal 19), `Redirect.QueryRoundTrip`, `Redirect.PathKept`,
`Redirect.FragmentKept` and `TicketIds.AfterMaximum`.

## Model

| member | source | states |
|---|---|---|
| `Md5Arithmetic.LowF` | `src/cn/edustar/usermgr/util/MD5.java:62-64` | the low 32 bits of F on longs are RFC 1321's F of the low words, for all upper halves |
| `Md5Arithmetic.LowG` | `src/cn/edustar/usermgr/util/MD5.java:66-68` | the same for G |
| `Md5Arithmetic.LowH` | `src/cn/edustar/usermgr/util/MD5.java:70-72` | the same for H |
| `Md5Arithmetic.LowI` | `src/cn/edustar/usermgr/util/MD5.java:74-76` | the same for I |
| `Md5Arithmetic.LowRotate` | `src/cn/edustar/usermgr/util/MD5.java:80` | the pair of `int` shifts rotates the low word left, though `(int)` and sign extension meet any upper half |
| `Md5Arithmetic.LowOperate` | `src/cn/edustar/usermgr/util/MD5.java:78-104` | the three assignments shared by FF, GG, HH and II are one operation of section 3.4 of RFC 1321 on the low words |
| `Md5Rounds.FF` | `src/cn/edustar/usermgr/util/MD5.java:78-83` | FF does on low words what the operation of round 1 does |
| `Md5Rounds.GG` | `src/cn/edustar/usermgr/util/MD5.java:85-90` | GG does on low words what the operation of round 2 does |
| `Md5Rounds.HH` | `src/cn/edustar/usermgr/util/MD5.java:92-97` | HH does on low words what the operation of round 3 does |
| `Md5Rounds.II` | `src/cn/edustar/usermgr/util/MD5.java:99-104` | II does on low words what the operation of round 4 does |
| `Md5Rounds.Round1` | `src/cn/edustar/usermgr/util/MD5.java:149-164` | the sixteen FF calls are round 1 of RFC 1321 on the low words |
| `Md5Rounds.Round2` | `src/cn/edustar/usermgr/util/MD5.java:165-180` | the sixteen GG calls are round 2 |
| `Md5Rounds.Round3` | `src/cn/edustar/usermgr/util/MD5.java:181-196` | the sixteen HH calls are round 3 |
| `Md5Rounds.Round4` | `src/cn/edustar/usermgr/util/MD5.java:197-212` | the sixteen II calls are round 4 |
| `Md5Engine.AllRounds` | `src/cn/edustar/usermgr/util/MD5.java:149-216` | the 64 operations, added to the registers they started from, are the block function of section 3.4 |
| `Md5Engine.MD5.Transform` | `src/cn/edustar/usermgr/util/MD5.java:145-217` | the state's low words after a block are the RFC block function of the low words before |
| `Md5Bytes.UnsignedByte` | `src/cn/edustar/usermgr/util/MD5.java:237-239` | `b2iu` gives the unsigned value of a byte, the precedence of `&` and `+` notwithstanding |
| `Md5Bytes.LowDecoded` | `src/cn/edustar/usermgr/util/MD5.java:229-235` | a decoded word has as low word the little-endian word of section 2 of RFC 1321 |
| `Md5Bytes.EncodedLow` | `src/cn/edustar/usermgr/util/MD5.java:219-227` | what `Encode` writes of a long depends on its low word only, and is that word little-endian |
| `Md5Bytes.DecodeEncode` | `src/cn/edustar/usermgr/util/MD5.java:219-235` | encoding a decoded word gives back its four bytes |
| `Md5Bytes.EncodeDecode` | `src/cn/edustar/usermgr/util/MD5.java:219-235` | decoding an encoded long gives it back modulo 2^32 |
| `Md5Bytes.HexReads` | `src/cn/edustar/usermgr/util/MD5.java:241-249` | the two characters that `byteHEX` gives for a byte, read as a hexadecimal number with letters in lower case, are the byte |
| `Md5Bytes.HexInjective` | `src/cn/edustar/usermgr/util/MD5.java:241-249` | different byte strings are rendered differently by `byteHEX` |
| `Md5Engine.Decode` | `src/cn/edustar/usermgr/util/MD5.java:229-235` | the loop decodes every group of four bytes |
| `Md5Engine.Encode` | `src/cn/edustar/usermgr/util/MD5.java:219-227` | the loop writes the four bytes of every long in order and nothing beyond `len` |
| `Md5Engine.Memcpy` | `src/cn/edustar/usermgr/util/MD5.java:138-143` | the loop copies exactly the range and leaves the rest |
| `Md5Count.Count0Low` | `src/cn/edustar/usermgr/util/MD5.java:110` | `count[0]` is 8 times the total length modulo 2^32 for every history of updates |
| `Md5Count.Position` | `src/cn/edustar/usermgr/util/MD5.java:109` | so the buffer position read from it is the total length modulo 64, always |
| `Md5Count.LengthBelow29` | `src/cn/edustar/usermgr/util/MD5.java:110-112` | for totals under 2^29 bytes the length field is right if and only if the number of updates after the first of 2^28 bytes or more is a multiple of 2^32 |
| `Md5Count.LengthOfShortUpdates` | `src/cn/edustar/usermgr/util/MD5.java:110-112` | with updates under 2^28 bytes and a total under 2^60 the length field is right if and only if the total is under 2^29: a carry out of 32 bits is never seen |
| `Md5Count.LengthExactly` | `src/cn/edustar/usermgr/util/MD5.java:110-112` | for every history of up to 2^31 updates of any Java lengths the length field is right if and only if, modulo 2^32, the updates made while the running sum of the `int` bit lengths was negative are as many as those with a negative bit length plus the high half of the final sum |
| `Md5Count.OneUpdate` | `src/cn/edustar/usermgr/util/MD5.java:110-112` | after a single update of any Java length the length field is right |
| `Md5Engine.MD5.constructor` | `src/cn/edustar/usermgr/util/MD5.java:47-50` | a new engine holds the empty message |
| `Md5Engine.MD5.Init` | `src/cn/edustar/usermgr/util/MD5.java:52-60` | the engine holds the empty message again, old buffer bytes notwithstanding |
| `Md5Engine.MD5.Update` | `src/cn/edustar/usermgr/util/MD5.java:106-125` | for any input: it fails, out of the bounds of an array, if and only if it is told of more bytes than there are or buffered and new bytes come to 2^31; otherwise, whatever the cut, the message held grows by the input: its whole blocks are folded into the state, the rest is in the buffer, the counters follow |
| `Md5Engine.MD5.FeedBlocks` | `src/cn/edustar/usermgr/util/MD5.java:117-120` | the loop folds every whole block of the input that is left, and no more, or runs out of bounds exactly in the stated cases |
| `Md5Engine.LastBlock` | `src/cn/edustar/usermgr/util/MD5.java:117` | the guard of the loop is true where 64 bytes are left and false where fewer are, except where `i + 63` overflows; that happens if and only if buffered and new bytes come to 2^31 |
| `Md5Engine.MD5.Final` | `src/cn/edustar/usermgr/util/MD5.java:127-136` | the digest is RFC 1321's with the length field in place of the length, and RFC 1321's outright when the length field is right |
| `Md5Engine.StreamingDigest` | `src/cn/edustar/usermgr/util/MD5.java:106-136` | under 2^29 bytes, with none but the last update of 2^28 bytes or more, every cut into updates gives the RFC 1321 digest |
| `Md5Engine.MD5.GetMD5OfStr` | `src/cn/edustar/usermgr/util/MD5.java:36-45` | it fails if and only if the string has fewer bytes than chars; otherwise the string returned is the hexadecimal RFC 1321 digest of the first `length()` bytes |
| `Md5Vectors.EmptyMessage` | `src/cn/edustar/usermgr/util/MD5.java:145-217` | the digest of the empty message, worked out operation by operation, is `d41d8cd98f00b204e9800998ecf8427e`, as in section A.5 of RFC 1321 |
| `Md5Vectors.LettersMessage` | `src/cn/edustar/usermgr/util/MD5.java:145-217` | that of the 62 letters and digits, over two blocks, is `d174ab98d277d9f5a5611c2c9f419d9f` |
| `SineTable.EntryIs` | `src/cn/edustar/usermgr/util/MD5.java:149-212` | each of the 64 constants is the integer part of 4294967296 times abs(sin(i)): for the reals that lie between all partial sums of the series of sine and cosine at one, and their multiples by the addition theorems |
| `BlockFold.FoldConcat` | `src/cn/edustar/usermgr/util/MD5.java:106-125` | hashing a concatenation of whole blocks is hashing the parts in order |
| `Rounds.RoundHistory` | `src/cn/edustar/usermgr/util/MD5.java:149-212` | straight-line assignments to a, d, c, b in turn are the RFC's rotation of register roles |
| `Policies.FinishedExactly` | `src/org/jasig/cas/ticket/support/TicketGrantingTicketExpirationPolicy.java:77-95` | a ticket that is not used any more stays expired from now on if and only if it is expired and, under a policy that can revive tickets, past its time to kill |
| `Policies.ThrottledRevives` | `src/org/jasig/cas/ticket/support/ThrottledUseAndTimeoutExpirationPolicy.java:58-83` | a policy revives a ticket at some time after its last use if and only if it is the throttled one, its waiting period is not negative and ends before the time to kill, and the ticket has been used |
| `TicketInvariants.DeleteValid` | `src/org/jasig/cas/ticket/registry/JpaTicketRegistry.java:68-84` | deleting keeps the ticket forest well formed, changes no remaining ticket, and takes the id out of the registry, with either registry |
| `TicketInvariants.StepProper` | `src/org/jasig/cas/CentralAuthenticationServiceImpl.java:151-468` | every step of the five operations, with either registry, keeps the forest well formed and changes old tickets only so: same parent, policy and data, flags only raised, use recorded only while live |
| `TicketRuns.SettledForever` | `src/org/jasig/cas/ticket/AbstractTicket.java:86-114` | with either registry, a ticket on whose granting chain some ticket is expired by hand or finished in that sense is expired at the end of every longer run, whatever the policies of other tickets |
| `TicketRuns.ExpiredForever` | `src/org/jasig/cas/ticket/AbstractTicket.java:86-114` | in every run, with either registry: if the policy of granting tickets, and for a service ticket its own, cannot revive tickets, then what has expired is expired after every continuation |
| `TicketRuns.LivesAgain` | `src/org/jasig/cas/ticket/AbstractTicket.java:86-114` | for any chain and any policies: with the store as it is, the ticket is live at some instant from now on if and only if its chain has not been expired by hand and the latest opening of the chain's policies comes before their earliest close |
| `TicketRuns.GoneForever` | `src/org/jasig/cas/CentralAuthenticationServiceImpl.java:151-468` | an issued id that has left the store never returns |
| `TicketRuns.DestroyKills` | `src/org/jasig/cas/CentralAuthenticationServiceImpl.java:151-169` | destroying a granting ticket succeeds and leaves it and every ticket derived from it dead, with either registry |
| `TicketRuns.DeadRefused` | `src/org/jasig/cas/CentralAuthenticationServiceImpl.java:181-468` | no grant, delegation or validation made with a dead ticket succeeds, whatever the policies |
| `TicketRuns.DestroyedForever` | `src/org/jasig/cas/CentralAuthenticationServiceImpl.java:151-169` | after a granting ticket is destroyed, every later request with a ticket whose chain contained it fails, in every run |
| `TicketRuns.NoNewDescendants` | `src/org/jasig/cas/ticket/TicketGrantingTicketImpl.java:129-136` | no later run derives a usable ticket from a destroyed one |
| `RegistryEquivalence.StepMatches` | `src/org/jasig/cas/ticket/registry/DefaultTicketRegistry.java:71-80` | one step with each registry gives the same outcome and keeps the simulation: no request with a ticket that only the in-memory registry still holds can succeed |
| `RegistryEquivalence.OutcomesAgree` | `src/org/jasig/cas/ticket/registry/JpaTicketRegistry.java:68-106` | from an empty store, over any run, whatever kinds of tickets its requests name: the outcomes with the two registries differ at exactly the requests that name a ticket of the wrong kind which only the in-memory one still knows, provided the policy of granting tickets does not bring them back to life or service tickets are never live |
| `RegistryEquivalence.RegistriesEquivalent` | `src/org/jasig/cas/ticket/registry/JpaTicketRegistry.java:68-106` | from an empty store, over any run with ids of the right kind, every operation has the same outcome with either registry, provided the policy of granting tickets does not bring them back to life or service tickets are never live |
| `RegistryEquivalence.WrongKind` | `src/org/jasig/cas/ticket/registry/JpaTicketRegistry.java:125-136` | an id of the wrong kind tells the registries apart if and only if only the in-memory one still knows it (and a delegation's credentials were accepted); such a request changes neither store |
| `ThrottledRegistries.EquivalentExactly` | `src/org/jasig/cas/ticket/registry/JpaTicketRegistry.java:68-106` | that proviso is exact: for every pair of policies, the registries give every request of every run the same answer if and only if it holds |
| `ThrottledRegistries.ToldApart` | `src/org/jasig/cas/ticket/support/ThrottledUseAndTimeoutExpirationPolicy.java:58-83` | for every other pair of policies a run, ids of the right kind, whose last request has different outcomes: a proxy-granting ticket minted when the use count of the login wraps to zero outlives the deletion of the login in memory only |
| `ThrottledRegistries.FourEventsTell` | `src/org/jasig/cas/ticket/support/ThrottledUseAndTimeoutExpirationPolicy.java:58-83` | four events suffice if a service ticket outlives the waiting period: login, grant, a grant asked too soon, and the redemption of the granted ticket |
| `TicketChains.GrantingAcyclic` | `src/org/jasig/cas/ticket/TicketGrantingTicketImpl.java:62-70` | in every state of every run no ticket is reached from itself along granting tickets |
| `TicketChains.ChainIsPath` | `src/org/jasig/cas/ticket/TicketGrantingTicketImpl.java:138-150` | the chain of a ticket is a granting path to a login |
| `TicketChains.PathIsChain` | `src/org/jasig/cas/ticket/TicketGrantingTicketImpl.java:138-150` | and it is the only one |
| `TicketChains.AuthenticationsFollowChain` | `src/org/jasig/cas/ticket/TicketGrantingTicketImpl.java:138-150` | the authentications are those of the tickets of the chain, one each, own first, login last |
| `TicketChains.AssertionFollowsChain` | `src/org/jasig/cas/CentralAuthenticationServiceImpl.java:424-515` | an assertion comes of a live registered ticket for a matching service; it has one authentication a ticket of the chain, unchanged but for the login, of which exactly the attributes the registered service may see are left; the user is named by the persistent id under anonymous access, otherwise by the username attribute exactly if the service has one, may see it and the login has it, and else by the login's id |
| `TicketChains.AssertionOfGrant` | `src/org/jasig/cas/CentralAuthenticationServiceImpl.java:181-468` | whatever lies between grant and validation, with either registry: the assertion is about the service the ticket was granted for and the logins its granting ticket had then, and marked as the grant's credentials and use count say |
| `TicketChains.AssertionHides` | `src/org/jasig/cas/CentralAuthenticationServiceImpl.java:424-515` | logins that differ only in attributes the registered service may not see give it the same assertion, user name included |
| `TicketOutcomes.GrantAnswer` | `src/org/jasig/cas/CentralAuthenticationServiceImpl.java:181-306` | which answer a grant gets, in plain conditions: the first that fails decides the error; credentials must have the principal id and the authentication attributes of the ticket's own login |
| `TicketOutcomes.CredentialsMustMatch` | `src/org/jasig/cas/CentralAuthenticationServiceImpl.java:259-276` | with credentials of another user, or other attributes, nothing is issued, and the error is that of ticket creation if nothing else stands against the request |
| `TicketOutcomes.DelegateAnswer` | `src/org/jasig/cas/CentralAuthenticationServiceImpl.java:343-381` | the same for a delegation |
| `TicketOutcomes.ValidateAnswer` | `src/org/jasig/cas/CentralAuthenticationServiceImpl.java:393-468` | the same for a validation |
| `TicketOutcomes.TicketMade` | `src/org/jasig/cas/CentralAuthenticationServiceImpl.java:181-543` | what is issued: parent, policy, use record, and login, or service and mark, of every new ticket |
| `TicketOutcomes.SpentRemoved` | `src/org/jasig/cas/CentralAuthenticationServiceImpl.java:463-467` | a validation past the expiry test leaves its ticket registered if and only if the use it counted has not spent it |
| `TicketOutcomes.DestroyRemoves` | `src/org/jasig/cas/CentralAuthenticationServiceImpl.java:151-169` | a destruction takes out of the registry the ticket alone, with JPA all that descends from it, and nothing else |
| `TicketAccounting.CountedAlways` | `src/org/jasig/cas/ticket/TicketGrantingTicketImpl.java:89-106` | in every run, with either registry, a granting ticket's use count is the number of service tickets it issued in the run, as a Java `int`, and its services are exactly theirs |
| `TicketAccounting.StepUse` | `src/org/jasig/cas/CentralAuthenticationServiceImpl.java:282-287` | with either registry, exactly the successful grants from a ticket touch its use record and add to its services |
| `TicketAccounting.NewLoginMark` | `src/org/jasig/cas/ticket/TicketGrantingTicketImpl.java:92-94` | at the end of every run, with either registry: a service ticket is marked from-new-login if and only if credentials came with the request or the number its granting ticket issued before in the run is a multiple of 2^32 |
| `TicketAccounting.SsoDisabledMark` | `src/org/jasig/cas/CentralAuthenticationServiceImpl.java:243-247` | at the end of every run, with either registry: a ticket granted while its service was barred from single sign-on is marked, unless the count has wrapped to a negative number: the exact condition |
| `TicketAccounting.MarkKept` | `src/org/jasig/cas/ticket/ServiceTicketImpl.java:89-95` | mark and service of a service ticket never change, in any run with either registry |
| `TicketAccounting.RenewAnswer` | `src/org/jasig/cas/validation/AbstractCasProtocolValidationSpecification.java:65-68` | whenever validated later, a ticket meets the renew clause if and only if it was marked, and always if no renewal is asked for |
| `ThrottledGrants.ThrottledSpacing` | `src/org/jasig/cas/ticket/support/ThrottledUseAndTimeoutExpirationPolicy.java:58-83` | with either registry two consecutive grants from one throttled ticket are more than the waiting period apart, whatever lies between, unless the count has just wrapped to zero |
| `ThrottledGrants.ThrottledExactly` | `src/org/jasig/cas/ticket/support/ThrottledUseAndTimeoutExpirationPolicy.java:58-83` | exactly when that fails: after a grant some continuation grants again within the waiting period if and only if the count has just wrapped to zero, the waiting period is not negative and the time to kill is positive |
| `ThrottledGrants.TooSoonExactly` | `src/org/jasig/cas/ticket/support/ThrottledUseAndTimeoutExpirationPolicy.java:58-83` | over runs, with either registry: if and only if the ticket had issued one less than a multiple of 2^32 before (the waiting period not being negative) |
| `UseRecords.UseRecord` | `src/org/jasig/cas/ticket/AbstractTicket.java:70-90` | in every run, with either registry: a ticket's creation time is the instant it was issued, its last and previous use are those of the run's last two uses of it, and its count is their number as an `int` |
| `UseRecords.DeadAtLimit` | `src/org/jasig/cas/ticket/support/TicketGrantingTicketExpirationPolicy.java:77-95` | however often used, from the age limit on no request made with a granting ticket, or with a ticket it led to, succeeds |
| `TicketAccounting.UsesBounded` | `src/org/jasig/cas/ticket/support/MultiTimeUseOrTimeoutExpirationPolicy.java:60-64` | in every run, with either registry, a service ticket of the n-use policy gets past the expiry test at most n times, matching or not, deleted or not |
| `TicketAccounting.MintedOnce` | `src/org/jasig/cas/ticket/ServiceTicketImpl.java:102-115` | in every run, with either registry, at most one proxy-granting ticket is minted from a service ticket |
| `LogOut.AllOnce` | `src/org/jasig/cas/ticket/TicketGrantingTicketImpl.java:114-123` | a round of log-outs keeps the law that each service object gets one message if told and reachable, otherwise none |
| `LogOut.AllNotified` | `src/org/jasig/cas/ticket/TicketGrantingTicketImpl.java:114-123` | a round of log-outs tells exactly the services of the map and sends messages only for entries of the map, to their endpoints |
| `LogOut.WebApplicationService.LogOutOfService` | `src/org/jasig/cas/authentication/principal/AbstractWebApplicationService.java:134-164` | the one-shot flag, and the one message sent: to the callback URL if it is given and not empty, else to the original URL |
| `LogOut.LogOutOfServices` | `src/org/jasig/cas/ticket/TicketGrantingTicketImpl.java:114-123` | the loop over the map, in any order, does what the specification of a round says to the flags and to the trace of all clients |
| `SingleLogOut.ToldExactly` | `src/org/jasig/cas/ticket/TicketGrantingTicketImpl.java:89-136` | at the end of every run, with either registry and for every order of the maps: the service objects told are exactly those of the service tickets issued by granting tickets the run expired; each was sent one message if it has a client, otherwise none; every message names such a ticket, for that service, as its session |
| `BoundedUse.AtMostNPass` | `src/org/jasig/cas/CentralAuthenticationServiceImpl.java:411-467` | for every interleaving the threads that pass the expiry test, matched or not, are as many as the recorded uses and at most n |
| `BoundedUse.SingleUse` | `src/org/jasig/cas/CentralAuthenticationServiceImpl.java:411-422` | with a single-use policy at most one thread ever passes, so a wrong-service attempt shuts out all others |
| `BoundedUse.OneProxyGrantingTicket` | `src/org/jasig/cas/ticket/ServiceTicketImpl.java:102-115` | for every interleaving at most one proxy-granting ticket is minted, exactly one if the flag is set |
| `BoundedUse.SpentTicketRetired` | `src/org/jasig/cas/CentralAuthenticationServiceImpl.java:463-467` | as soon as no thread that passed has still to finish its `finally` clause, a ticket whose uses are spent has left the registry; the look and the removal of the clause are steps of their own |
| `BoundedUse.NPassInTurn` | `src/org/jasig/cas/ticket/support/MultiTimeUseOrTimeoutExpirationPolicy.java:60-64` | the bound is met: n threads in turn and in time all pass |
| `TicketObjects.TicketObject.UpdateState` | `src/org/jasig/cas/ticket/AbstractTicket.java:86-90` | previous use, last use and the wrapping count |
| `TicketObjects.TicketObject.IsExpired` | `src/org/jasig/cas/ticket/AbstractTicket.java:112-114` | the recursion over parent objects answers what the protocol's expiry says |
| `TicketObjects.TicketObject.GetChainedAuthentications` | `src/org/jasig/cas/ticket/TicketGrantingTicketImpl.java:138-150` | the recursion over parent objects lists what the protocol's chain says |
| `TicketObjects.TicketObject.GrantServiceTicket` | `src/org/jasig/cas/ticket/TicketGrantingTicketImpl.java:89-112` | the new ticket, its mark taken before the count, and the change to the granting ticket |
| `TicketObjects.TicketObject.IsValidFor` | `src/org/jasig/cas/ticket/ServiceTicketImpl.java:97-100` | a use is counted whether or not the service matches |
| `TicketObjects.TicketObject.GrantTicketGrantingTicket` | `src/org/jasig/cas/ticket/ServiceTicketImpl.java:102-115` | one proxy-granting ticket with the granting ticket as parent, none the second time |
| `TicketObjects.DefaultTicketRegistry.AddTicket` | `src/org/jasig/cas/ticket/registry/DefaultTicketRegistry.java:45-52` | the cache holds the ticket under its id |
| `TicketObjects.DefaultTicketRegistry.DeleteTicket` | `src/org/jasig/cas/ticket/registry/DefaultTicketRegistry.java:71-80` | one entry goes; the answer says whether it was there |
| `TicketObjects.DefaultTicketRegistry.CountTickets` | `src/org/jasig/cas/ticket/registry/DefaultTicketRegistry.java:86-104` | the loop counts the tickets of one class, as a Java `int` |
| `CentralAuthentication.ReleaseAttributes` | `src/org/jasig/cas/CentralAuthenticationServiceImpl.java:432-440` | the loop keeps exactly the allowed attributes the principal has |
| `CentralAuthentication.BuildAssertion` | `src/org/jasig/cas/CentralAuthenticationServiceImpl.java:424-462` | the loops build the assertion of the protocol |
| `CentralAuthentication.CentralAuthenticationService.CreateTicketGrantingTicket` | `src/org/jasig/cas/CentralAuthenticationServiceImpl.java:526-543` | the objects move from one protocol state to the next, with the protocol's outcome |
| `CentralAuthentication.CentralAuthenticationService.GrantServiceTicket` | `src/org/jasig/cas/CentralAuthenticationServiceImpl.java:181-306` | the same for a grant |
| `CentralAuthentication.CentralAuthenticationService.Refusal` | `src/org/jasig/cas/CentralAuthenticationServiceImpl.java:235-276` | the checks on a live ticket, in the code's order, refuse exactly when and as the protocol does |
| `CentralAuthentication.CentralAuthenticationService.DelegateTicketGrantingTicket` | `src/org/jasig/cas/CentralAuthenticationServiceImpl.java:343-381` | the same for a delegation |
| `CentralAuthentication.CentralAuthenticationService.ValidateServiceTicket` | `src/org/jasig/cas/CentralAuthenticationServiceImpl.java:393-468` | the same for a validation, `finally` clause included |
| `CentralAuthentication.CentralAuthenticationService.DestroyTicketGrantingTicket` | `src/org/jasig/cas/CentralAuthenticationServiceImpl.java:151-169` | the same for a destruction |
| `JpaRegistry.JpaTicketRegistry.SelectChildren` | `src/org/jasig/cas/ticket/registry/JpaTicketRegistry.java:87-95` | the queries by parent id list every child of the kind once, in some order |
| `JpaRegistry.JpaTicketRegistry.RemoveTicket` | `src/org/jasig/cas/ticket/registry/JpaTicketRegistry.java:108-118` | one row goes; callers must have removed its children |
| `JpaRegistry.JpaTicketRegistry.DeleteTicketAndChildren` | `src/org/jasig/cas/ticket/registry/JpaTicketRegistry.java:86-106` | terminates on every forest, removes exactly the ticket and all that descends from it, and every store on the way has all the parents its rows point to |
| `JpaRegistry.JpaTicketRegistry.DeleteTicket` | `src/org/jasig/cas/ticket/registry/JpaTicketRegistry.java:68-84` | the row-by-row deletion is the deletion of the protocol, and answers whether the ticket was there |
| `JpaRegistry.JpaTicketRegistry.GetTicket` | `src/org/jasig/cas/ticket/registry/JpaTicketRegistry.java:121-136` | the table searched depends on the prefix; what is found is wrapped in a delegator of that row |
| `JpaRegistry.TicketDelegator.IsValidFor` | `src/org/jasig/cas/ticket/registry/AbstractDistributedTicketRegistry.java:140-144` | changing the copy and writing it back changes the store as one use does |
| `JpaRegistry.TicketDelegator.GrantTicketGrantingTicket` | `src/org/jasig/cas/ticket/registry/AbstractDistributedTicketRegistry.java:146-150` | the flag of the row is set when a ticket is minted, and nothing changes when none is |
| `JpaRegistry.TicketDelegator.GrantServiceTicket` | `src/org/jasig/cas/ticket/registry/AbstractDistributedTicketRegistry.java:165-169` | written back and with the new ticket stored, the store is that of the protocol's grant |
| `JpaRegistry.TicketDelegator.Expire` | `src/org/jasig/cas/ticket/registry/AbstractDistributedTicketRegistry.java:171-174` | the row is flagged |
| `JpaAuthentication.CentralAuthenticationService.CreateTicketGrantingTicket` | `src/org/jasig/cas/CentralAuthenticationServiceImpl.java:526-543` | over the JPA registry: the table moves from one protocol state to the next, and the answer is the protocol's |
| `JpaAuthentication.CentralAuthenticationService.GrantServiceTicket` | `src/org/jasig/cas/CentralAuthenticationServiceImpl.java:181-306` | the same for a grant, through a delegator and, if expired, the row-by-row deletion |
| `JpaAuthentication.CentralAuthenticationService.DelegateTicketGrantingTicket` | `src/org/jasig/cas/CentralAuthenticationServiceImpl.java:343-381` | the same for a delegation |
| `JpaAuthentication.CentralAuthenticationService.ValidateServiceTicket` | `src/org/jasig/cas/CentralAuthenticationServiceImpl.java:393-468` | the same for a validation: the use is written back before the service is compared, `finally` clause included |
| `JpaAuthentication.CentralAuthenticationService.DestroyTicketGrantingTicket` | `src/org/jasig/cas/CentralAuthenticationServiceImpl.java:151-169` | the same for a destruction: the row is flagged, then deleted with all its descendants |
| `ServiceStore.HighestId` | `src/org/jasig/cas/services/InMemoryServiceRegistryDaoImpl.java:58-68` | an upper bound of all ids and zero, reached unless it is zero |
| `ServiceStore.InMemoryServiceRegistryDao.FindHighestId` | `src/org/jasig/cas/services/InMemoryServiceRegistryDaoImpl.java:58-68` | the loop finds the highest id |
| `ServiceStore.NewId` | `src/org/jasig/cas/services/InMemoryServiceRegistryDaoImpl.java:38-41` | an entry saved with id -1 gets the highest id plus one, wrapping; any other keeps its id |
| `ServiceStore.NewIdFresh` | `src/org/jasig/cas/services/InMemoryServiceRegistryDaoImpl.java:38-41` | the id given to a new entry is unused if and only if the highest id is below the maximum or the lowest `long` is unused |
| `ServiceStore.InMemoryServiceRegistryDao.FindServiceById` | `src/org/jasig/cas/services/InMemoryServiceRegistryDaoImpl.java:24-32` | the first entry with the id, none if there is none |
| `ServiceStore.InMemoryServiceRegistryDao.Delete` | `src/org/jasig/cas/services/InMemoryServiceRegistryDaoImpl.java:20-22` | the first entry of equal content goes, whatever its id |
| `ServiceStore.InMemoryServiceRegistryDao.Save` | `src/org/jasig/cas/services/InMemoryServiceRegistryDaoImpl.java:38-47` | the entry, numbered if new, is appended after an equal one is removed |
| `ServiceStore.LoadedFrom` | `src/org/jasig/cas/services/DefaultServicesManagerImpl.java:125-135` | the cache that loading builds has exactly the ids of the list, each with an entry of that id |
| `ServiceStore.SaveAgrees` | `src/org/jasig/cas/services/DefaultServicesManagerImpl.java:114-118` | saving keeps cache and store in agreement if and only if the entry thrown out for equal content has the same id or is overridden by a later one |
| `ServiceStore.DeleteAgrees` | `src/org/jasig/cas/services/DefaultServicesManagerImpl.java:57-67` | deleting keeps agreement if and only if the first entry of equal content is the deleted one and its id occurs once; otherwise a reload brings the id back |
| `ServiceStore.SavesAgree` | `src/org/jasig/cas/services/DefaultServicesManagerImpl.java:114-123` | after any run of saves whose contents are shared by no two ids a reload changes nothing |
| `ServiceStore.EditedEntryReturns` | `src/org/jasig/cas/services/AbstractRegisteredService.java:148-177` | save, edit, delete, reload: the entry is back in its first version |
| `ServiceStore.DefaultServicesManager.Load` | `src/org/jasig/cas/services/DefaultServicesManagerImpl.java:125-135` | the loop fills the cache with the last entry of each id |
| `ServiceStore.DefaultServicesManager.Reload` | `src/org/jasig/cas/services/DefaultServicesManagerImpl.java:120-123` | afterwards cache and store agree, and nothing changes if they did |
| `ServiceStore.DefaultServicesManager.Save` | `src/org/jasig/cas/services/DefaultServicesManagerImpl.java:114-118` | cache and store after a save, and exactly when they still agree |
| `ServiceStore.DefaultServicesManager.Delete` | `src/org/jasig/cas/services/DefaultServicesManagerImpl.java:57-67` | cache and store after a deletion, and exactly when they still agree |
| `ServiceLookup.BeforeIsAhead` | `src/org/jasig/cas/services/AbstractRegisteredService.java:306-311` | one entry comes before another if and only if its evaluation order is lower, or equal and its lower-case name is a proper prefix of the other's or has the smaller character where they first differ |
| `ServiceLookup.TreeSetKeeps` | `src/org/jasig/cas/services/DefaultServicesManagerImpl.java:100-102` | the tree set is ascending and holds, of the services with one key, the one the map gives first |
| `ServiceLookup.LeastMatch` | `src/org/jasig/cas/services/DefaultServicesManagerImpl.java:74-88` | with distinct keys the lookup gives the matching service that is ahead of all others in evaluation order, then lower-case name; none exactly when none matches, the default exactly when there are no services |
| `ServiceLookup.LookupOrderFree` | `src/org/jasig/cas/services/DefaultServicesManagerImpl.java:74-102` | the lookup is independent of the map's order if and only if no service matches or the least match is alone with its key |
| `ServiceLookup.ConvertToTreeSet` | `src/org/jasig/cas/services/DefaultServicesManagerImpl.java:100-102` | the set is ascending, has only values of the map, and one for each of their keys: the first in the map's order |
| `ServiceLookup.FindService` | `src/org/jasig/cas/services/DefaultServicesManagerImpl.java:74-88` | default exactly when there are no services, else a match or none; with distinct keys the match ahead of all others in this sense, whatever the map's order |
| `UrlParameters.RemoveOneOnSegments` | `src/com/chinaedustar/sso/cas/util/CasUtility.java:38-57` | on query segments, with any number of question marks, the body of the loop drops a named first segment; else it cuts the first segment with the name behind a question mark inside, there, and merges it with the next; else it drops the first named segment; and it finds the name if and only if there is such a segment |
| `UrlParameters.RemoveHttpGetParameters` | `src/com/chinaedustar/sso/cas/util/CasUtility.java:26-74` | the loop and its recursion end for every URL and every list of names, null included, and give the cleaned URL |
| `UrlParameters.NoneNamed` | `src/com/chinaedustar/sso/cas/util/CasUtility.java:26-74` | no segment of a cleaned query begins with a listed name, for every URL and every list |
| `UrlParameters.ResetUrl` | `src/com/chinaedustar/sso/cas/util/CasUtility.java:12-17` | the same with the three names: no query segment that is left begins with `lt=`, `error_message=` or `get-lt=` |
| `UrlParameters.CleanedTwice` | `src/com/chinaedustar/sso/cas/util/CasUtility.java:26-74` | a second application changes nothing, for every URL and every list |
| `UrlParameters.NothingLeft` | `src/com/chinaedustar/sso/cas/util/CasUtility.java:38-57` | a cleaned URL with a question mark has no place left where a name would be found |
| `UrlParameters.RemovalKeepsMeaning` | `src/com/chinaedustar/sso/cas/util/CasUtility.java:26-74` | for a URL with no ampersand before the query and any list: if no listed name follows a question mark inside a segment, and nothing is found or the last segment to stay does not end in a question mark, then the non-empty query segments are those of the original not named in the list, in order, and the part before the query stays |
| `UrlParameters.RemovalLosesMeaning` | `src/com/chinaedustar/sso/cas/util/CasUtility.java:26-74` | for every URL and list, these segments are lost if one that should stay holds a listed name behind a question mark |
| `OneName.OneNameExactly` | `src/com/chinaedustar/sso/cas/util/CasUtility.java:26-74` | for one name the exact condition, to be read off the query before the call: no segment to stay holds the name behind a question mark; no row of named segments, other than one at the start, in which that is so of some segment, is directly followed by a segment to stay; and the name is not found more often than empty segments follow a last segment to stay that ends in a question mark |
| `UrlParameters.BaseKept` | `src/com/chinaedustar/sso/cas/util/CasUtility.java:26-74` | the part before the query stays in any case |
| `OneName.SecondQuestionMark` | `src/com/chinaedustar/sso/cas/util/CasUtility.java:41-63` | an input: from `?x?p=` nothing but `?x` is left |
| `SeveralNames.SeveralNamesExactly` | `src/com/chinaedustar/sso/cas/util/CasUtility.java:26-74` | for any list of different names without equals signs, and URLs in which no listed name follows a question mark inside a segment, the exact condition, to be read off the query: the last segment to stay does not end in a question mark, or the name that occurs most often does not occur more often than it takes calls to clear what is behind that segment |
| `SeveralNames.ResetExactly` | `src/com/chinaedustar/sso/cas/util/CasUtility.java:12-17` | under the same condition, read off for the three names, exactly the segments that begin with `lt=`, `error_message=` or `get-lt=` go, and the other non-empty ones stay in order |
| `SeveralNames.OrderOfNames` | `src/com/chinaedustar/sso/cas/util/CasUtility.java:38-63` | with two names the last non-empty segment is not the one that counts: from `?p=&p=&x?&q=` nothing but `?x` is left |
| `SeveralNames.OrderSaves` | `src/com/chinaedustar/sso/cas/util/CasUtility.java:38-63` | and `?x&u&n` keeps `n`, though `u` is named and holds the second name behind a question mark: the first takes all of `u` |
| `Redirect.SanitizeUrl` | `src/org/jasig/cas/authentication/principal/Response.java:121-134` | the matcher loop replaces each longest run by one space |
| `Redirect.SanitizedRun` | `src/org/jasig/cas/authentication/principal/Response.java:121-134` | text before a run of these characters stays as it is, the run becomes one space, and so on behind it |
| `Redirect.SanitizedClean` | `src/org/jasig/cas/authentication/principal/Response.java:39-40` | no character of the class is left, and no other but the space is lost or made |
| `Redirect.SanitizedTwice` | `src/org/jasig/cas/authentication/principal/Response.java:121-134` | a clean URL is left alone, so sanitizing twice is sanitizing once |
| `Redirect.EscapeStays` | `src/org/jasig/cas/authentication/principal/Response.java:38-40` | an unprintable ASCII character is left if and only if the URL holds one of 1A to 1F |
| `Redirect.AppendParameters` | `src/org/jasig/cas/authentication/principal/Response.java:72-89` | the loop appends the non-null parameters in the map's order with the right separators |
| `Redirect.GetRedirectResponse` | `src/org/jasig/cas/authentication/principal/Response.java:65-97` | the printed URL, or the exception of an empty split |
| `Redirect.RedirectFails` | `src/org/jasig/cas/authentication/principal/Response.java:68-70` | printing raises an exception if and only if the sanitized URL is nothing but `#` |
| `Redirect.QueryRoundTrip` | `src/org/jasig/cas/authentication/principal/Response.java:65-97` | reading the query back gives the URL's own segments and then the non-null parameters if and only if there are none, or no parameter name holds an ampersand or a hash and no question mark is in the fragment alone |
| `Redirect.PathKept` | `src/org/jasig/cas/authentication/principal/Response.java:65-97` | the path stays if and only if there are no non-null parameters or no question mark is in the fragment alone, whatever the names |
| `Redirect.ParametersReadBack` | `src/org/jasig/cas/authentication/principal/Response.java:80-84` | an appended segment reads back as its name and decoded value if and only if the name holds no equals sign |
| `Redirect.FragmentKept` | `src/org/jasig/cas/authentication/principal/Response.java:91-94` | where no parameter name holds a hash, the fragment survives if and only if there is none, or it is not empty and has no further `#`; where one does, if and only if it is `x#y`, `x` being what the parameters hold behind their first hash and `y` what `x` holds before its own |
| `Redirect.EncoderLawful` | `src/org/jasig/cas/authentication/principal/Response.java:83-87` | the encoding of `URLEncoder`, in UTF-8, can be undone and emits none of `&`, `=`, `?`, `#`, which is what these results ask of it |
| `UrlEncoding.CharForm` | `src/org/jasig/cas/authentication/principal/Response.java:83-87` | letters, digits and `. - * _` stay, a space becomes a plus sign, every byte of another character's UTF-8 form a percent sign and two upper-case hexadecimal digits |
| `UrlEncoding.Utf8Form` | `src/org/jasig/cas/authentication/principal/Response.java:83-87` | the first byte of that form tells the number of bytes, and each further one carries six bits |
| `TicketIds.DefaultLongNumericGenerator.GetNextValue` | `src/org/jasig/cas/util/DefaultLongNumericGenerator.java:67-72` | value and counter, with the wrap at the maximum |
| `TicketIds.ValuesRepeat` | `src/org/jasig/cas/util/DefaultLongNumericGenerator.java:67-72` | from a start that is not negative, two sequential calls give one value if and only if a multiple of 2^63 calls lies between |
| `TicketIds.InterleavedDistinct` | `src/org/jasig/cas/util/DefaultLongNumericGenerator.java:67-72` | for every interleaving of the two atomic steps of the callers and every start, no two of 2^63 values taken one after the other are equal, across the wrap too |
| `TicketIds.InterleavedFirst` | `src/org/jasig/cas/util/DefaultLongNumericGenerator.java:67-72` | up to the maximum they are start, start + 1 and so on |
| `TicketIds.AfterMaximum` | `src/org/jasig/cas/util/DefaultLongNumericGenerator.java:67-72` | after the maximum the counter is zero or the lowest `long`, by which step took it |
| `TicketIds.DecimalReads` | `src/org/jasig/cas/util/DefaultLongNumericGenerator.java:55-57` | the rendering consists of digits, read in base ten it is the number, and it has no leading zero |
| `TicketIds.DecimalInjective` | `src/org/jasig/cas/util/DefaultLongNumericGenerator.java:55-57` | decimal rendering is injective |
| `TicketIds.ConvertBytesToString` | `src/org/jasig/cas/util/DefaultRandomStringGenerator.java:78-86` | one printable character a byte, by the byte's magnitude modulo 61; never a dash |
| `TicketIds.PrintableCharacters` | `src/org/jasig/cas/util/DefaultRandomStringGenerator.java:35-36` | the 61 characters: the letters in both cases, and the digits but for the eight |
| `TicketIds.IdsInjective` | `src/org/jasig/cas/util/DefaultUniqueTicketIdGenerator.java:108-125` | ids with dash-free prefixes and one suffix are equal only if prefix, number and random part are |
| `TicketIds.IdsDistinct` | `src/org/jasig/cas/util/DefaultUniqueTicketIdGenerator.java:108-125` | any two ids with numbers less than 2^63 issues apart differ, whatever the random parts, for every interleaving of the callers and every start, across the wrap too |
| `TicketIds.IdsInTurn` | `src/org/jasig/cas/util/DefaultUniqueTicketIdGenerator.java:108-125` | called in turn, from a start that is not negative, any two differ unless a multiple of 2^63 calls lies between |
| `TicketIds.DefaultUniqueTicketIdGenerator.GetNewTicketId` | `src/org/jasig/cas/util/DefaultUniqueTicketIdGenerator.java:108-125` | the id's parts and the counter afterwards |
| `Throttle.ExceedsWindow` | `src/org/jasig/cas/web/support/AbstractThrottledSubmissionHandlerInterceptorAdapter.java:64-66` | a failure counts for less than 1000 * range / threshold milliseconds |
| `Throttle.DropWindow` | `src/org/jasig/cas/web/support/AbstractInMemoryThrottledSubmissionHandlerInterceptorAdapter.java:41-55` | an entry may be dropped as soon as it is older than that |
| `Throttle.DroppedIsSlow` | `src/org/jasig/cas/web/support/AbstractInMemoryThrottledSubmissionHandlerInterceptorAdapter.java:41-55` | an entry that a clean-up may drop never exceeds the threshold again |
| `Throttle.CleanUpUnobservable` | `src/org/jasig/cas/web/support/AbstractInMemoryThrottledSubmissionHandlerInterceptorAdapter.java:23-55` | with a clock that never goes back, wherever clean-ups fall, every attempt is answered as from a plain history of failures |
| `Throttle.ClockMatters` | `src/org/jasig/cas/web/support/AbstractInMemoryThrottledSubmissionHandlerInterceptorAdapter.java:41-67` | a dropped entry would have been refused at another time exactly when the window ends between the two |
| `Throttle.InMemoryThrottledSubmissionHandler.ExceedsThreshold` | `src/org/jasig/cas/web/support/AbstractInMemoryThrottledSubmissionHandlerInterceptorAdapter.java:23-29` | so long as the clock has not gone back, the answer is that of a history that forgets nothing, whatever clean-ups removed: the key has failed, and too recently |
| `Throttle.InMemoryThrottledSubmissionHandler.RecordSubmissionFailure` | `src/org/jasig/cas/web/support/AbstractInMemoryThrottledSubmissionHandlerInterceptorAdapter.java:32-34` | the last failure of the key is now, and the map still knows all of the history that matters |
| `Throttle.InMemoryThrottledSubmissionHandler.DecrementCounts` | `src/org/jasig/cas/web/support/AbstractInMemoryThrottledSubmissionHandlerInterceptorAdapter.java:41-55` | the loop removes exactly the entries whose rate is below the threshold, and the map still knows all of the history that matters |

## Left out

- SineTable.EntryIs: that there are such reals is not proved, since the real numbers here come without limits.
- Md5Engine.MD5.Update: of a call that fails only that it fails is stated, not what it leaves behind in buffer and counters; a negative length is not modelled.
- Md5Engine.MD5.GetMD5OfStr: `toMD5` with an output length is a substring of the same.
- Throttle.CleanUpUnobservable: rates are exact rationals, so rounding of `double` is not modelled; neither is a clean-up concurrent with requests.
- Redirect.EncoderLawful: unpaired surrogates, which are not characters here; the branch for an encoder that throws is not modelled.
- OneName.OneNameExactly: parameter names are free of `?` and `&`, as the three the code uses are, and no ampersand precedes the query.
- SeveralNames.SeveralNamesExactly: for lists of several names and a listed name behind a question mark inside a segment, meaning is shown to be lost where that segment should stay (`UrlParameters.RemovalLosesMeaning`); where only segments to go hold one, it depends on the order of the list (`OrderSaves`), and no one condition is stated.
- ServiceLookup.FindService: a service without a name, for which `compareTo` throws; lower-casing and pattern matching are arbitrary functions.
- ServiceStore.DefaultServicesManager.Save: entries are values, so a caller that goes on changing a saved object is not modelled; nor is a DAO other than the in-memory one.
- TicketIds.IdsDistinct: two generators that share a prefix are not compared.
- BoundedUse.AtMostNPass: is about the in-memory registry, whose lookups share one ticket object; with JPA every lookup wraps a copy of the row in an object of its own, so the lock excludes nobody, and what threads see of each other's writes is up to the isolation level of the database and to Hibernate. For requests one after the other `TicketAccounting.UsesBounded` and `MintedOnce` hold with JPA too.
- RegistryEquivalence.RegistriesEquivalent: operations are atomic, the registry for service tickets is the one for granting tickets, and removals from the database do not fail.
- SingleLogOut.ToldExactly: with JPA every grant is taken to store a copy of its service object of its own; the messages of the registry cleaner are not modelled.
- CentralAuthentication.CentralAuthenticationService.DestroyTicketGrantingTicket: the log-out messages of `expire` are stated apart, in `LogOut` and `SingleLogOut`, for the JPA registry too; `setPrincipal` on a service object is not modelled.
- CentralAuthentication.BuildAssertion: attribute values are strings and never null.
- Null arguments, which `Assert.notNull` refuses at the head of each operation.
- The clock within one operation: the code reads it several times, the model once.
- Setters of the expiration policies, and the remember-me policy that delegates to others.
- Controllers, web flow, views, cookies, JSPs, Spring and JMX wiring, audit and logging: plumbing around the operations.
- Hibernate and JDBC code, `HttpClient`, SAML and OpenSAML code: libraries and network; a log-out is a trace of messages.
- Monitors, pager, uptime statistics, hash codes: would only add easy members.
