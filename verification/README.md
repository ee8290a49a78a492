# Verified core of the Android RTC client

The client joins a media server through libmediasoupclient and a copy of webrtc. This project models the parts
of both that keep state or do arithmetic that other code relies on without checking it, and proves what they
promise.

* **The remote session description** (`MediaSections`, `RemoteSdpModel`, `RemoteSdp`). A list of m-sections, an
  index from mid to section, a mirrored list for writing, a BUNDLE string and a pinned first section are four
  views of one state. Closed slots are reused. `RemoteSdpModel` is the state machine and what holds over all of
  its runs; `RemoteSdp` is the class with its loops, proved to do the state machine's steps.
* **Handlers and transports** (`HandlerModel`, `Handlers`, `Endpoints`, `RecvModel`, `RecvNaming`, `SendModel`,
  `Transports`). Producers, consumers, the transports that list them, and the handlers that negotiate for them.
  The unchecked index lookup when a section is closed is safe only because of flags kept three layers above it;
  the proof goes through all of them. `Transports` and `Handlers` hold the classes:
  a transport owns a handler, a handler its `RemoteSdp` object, and that the section objects.
* **Capability negotiation** (`Validators`, `Ortc`, `OrtcParams`, `OrtcSending`, `OrtcJson`,
  `OrtcAgain`, `OrtcGiven`, `RtpParameters`, `Accepted`). From two capability
  sets to extended, receive and sending parameters, with JSON validation before and after. `OrtcGiven` says what
  comes out in terms of the two sets that went in, `Accepted` what the validators accept and add.
* **SSRC lines** (`Text`, `Ssrc`). Writing legacy simulcast streams and reading encodings back, through decimal
  text, split and join (the grouping of section 4.2 of RFC 5576).
* **Lazy JNI lookups** (`LazyJni`). A lock-free publish-once protocol, as steps of any number of threads.
* **Audio level, reference counts, header extensions, send times** (`AudioLevels`, `RefPtrs`, `ScopedRefptr`,
  `AtomicRefs`, `HeaderExtensions`, `SendTimes`).

Each public call is one step. The peer connection, the listener and the lookups of the Java environment are
parameters: the offered section with its mid, the listener's verdict, the looked-up id. A caller's duties are
predicates (`Legal`, `Allowed`, `Tidy`, `Proper`), not restrictions of the code; where a property fails without
them, a lemma says exactly when it holds.

Where the code does not do what its comments, names or callers suggest, the model follows the code:

* closing a section whose mid is unknown closes the first section (`ClosingUnknownMidHitsFirst`);
* an SCTP section is always appended, though its caller has asked for the next free slot
  (`DataLandsWhereAnnounced`);
* a mid generated from the size of the mid map collides with a numeral that a caller gave
  (`GeneratedMidTakenIffGiven`);
* a null VP9 or H264 profile passes validation and makes the negotiation throw (`ThrowsIff`,
  `ThrowsForEveryIff`, `NullProfileThrows`);
* negotiating writes nulls into the capability objects, which then may not validate again
  (`LeftBehindValidIff`, `UnnumberedNotValidAgain`);
* producing a kind that cannot be sent passes the checks and sets the transport up before it fails
  (`UnsendableChangesIff`);
* overlapping simulcast ranges, modulo 2^32, are not read back (`SimulcastRoundTrip`);
* reducing codecs by a capability fails on a codec without an RTX codec behind it (`ReduceWorksIff`);
* an RTX codec refers to a payload type cut to 8 bits (`AptIsPayloadTypeIff`);
* looking up a header extension can change when duplicates are removed (`FindUnchangedIff`);
* the comments on the two lazy lookups say that the effort is duplicated only once. Any number of threads may
  duplicate it (`AnyNumberLookUp`): each whose load comes before the first publication (`LooksUpIffEarly`).
  What holds of classes is that one reference remains (`OneReferenceRemains`).

`dafny verify dfyconfig.toml` checks the whole project.

## Model

| member | source | states |
|---|---|---|
| `RemoteSdpModel.StepKeepsCoherence` | rtc-sdk/deps/libmediasoupclient/src/sdp/RemoteSdp.cpp:90-349 | from a coherent table each of the eight operations leads to a coherent table exactly when its caller's duty (`Legal`) was met: a new mid is unused, a closed mid is known, a role is one of the three known ones; coherent means the mid index inverts the section list, the mirrored media list equals the sections, every section has the current ICE credentials and the setup of its kind and role, BUNDLE is up to date, and the first section is open and carries the first mid |
| `RemoteSdpModel.RunCoherent` | rtc-sdk/deps/libmediasoupclient/src/sdp/RemoteSdp.cpp:14-349 | every state of every run of legal operations, of any length, is coherent |
| `RemoteSdpModel.AddKeeps` | rtc-sdk/deps/libmediasoupclient/src/sdp/RemoteSdp.cpp:290-307 | appending a section keeps the table coherent exactly when its mid is non-empty and not indexed yet |
| `RemoteSdpModel.ReplaceKeeps` | rtc-sdk/deps/libmediasoupclient/src/sdp/RemoteSdp.cpp:309-349 | putting a section into a closed slot keeps the table coherent exactly when its mid is non-empty and unused except by that slot |
| `RemoteSdpModel.CloseKeeps` | rtc-sdk/deps/libmediasoupclient/src/sdp/RemoteSdp.cpp:257-276 | closing keeps the table coherent exactly when the mid is indexed |
| `RemoteSdpModel.CloseCloses` | rtc-sdk/deps/libmediasoupclient/src/sdp/RemoteSdp.cpp:257-276 | closing a known mid closes its section: port 0, inactive, without extensions, SSRCs, simulcast and RIDs; the open mids, in order, have lost exactly it, and its slot may be taken next; the first section only becomes inactive and stays open; no other section changes |
| `RemoteSdpModel.EveryCloseCloses` | rtc-sdk/deps/libmediasoupclient/src/sdp/RemoteSdp.cpp:257-276 | and so in every run |
| `RemoteSdpModel.SetupsFollowRole` | rtc-sdk/deps/libmediasoupclient/src/sdp/MediaSection.cpp:135-140 | in every run an answer section says active when the role is client, passive when it is server, actpass when it is auto, nothing for other roles, and an offer section says actpass |
| `RemoteSdpModel.SettingsAreLatest` | rtc-sdk/deps/libmediasoupclient/src/sdp/RemoteSdp.cpp:90-128 | in every run the ICE parameters and the role of the table are those last set |
| `RemoteSdpModel.CredentialsAreLatest` | rtc-sdk/deps/libmediasoupclient/src/sdp/RemoteSdp.cpp:90-108 | and every section has the ICE credentials last set |
| `RemoteSdpModel.VersionCountsWrites` | rtc-sdk/deps/libmediasoupclient/src/sdp/RemoteSdp.cpp:278-288 | in every run the session version is the number of descriptions written, as a 32-bit number |
| `RemoteSdpModel.ClosingUnknownMidHitsFirst` | rtc-sdk/deps/libmediasoupclient/src/sdp/RemoteSdp.cpp:257-276 | closing a mid the index does not have closes section 0, although the code means never to close the first section: the unchecked map lookup yields index 0 |
| `RemoteSdpModel.RoleKeeps` | rtc-sdk/deps/libmediasoupclient/src/sdp/RemoteSdp.cpp:110-128 | a role change keeps the table coherent exactly when the role is known, or no answer section carries the setup of a known one |
| `RemoteSdpModel.NewMediaEnters` | rtc-sdk/deps/libmediasoupclient/src/sdp/RemoteSdp.cpp:147-245 | sending and receiving media reuse the first closed slot or else append; the branch of replacement that looks a section up by its own mid is not reached, since a recycled slot always has a mid |
| `RemoteSdpModel.BundleSplits` | rtc-sdk/deps/libmediasoupclient/src/sdp/RemoteSdp.cpp:351-369 | in a coherent table, splitting the BUNDLE string at spaces gives exactly the mids of the open sections in m-line order, if and only if none of them contains a space |
| `RemoteSdpModel.SlotStays` | rtc-sdk/deps/libmediasoupclient/src/sdp/RemoteSdp.cpp:257-349 | over any stretch of any run the table does not shrink, and a slot that stays open keeps its section: mid, side, kind, protocol and payload types |
| `RemoteSdpModel.FirstSectionStays` | rtc-sdk/deps/libmediasoupclient/src/sdp/RemoteSdp.cpp:257-276 | once there is a first section, that section stays at index 0 for the rest of the run: it is never closed and never replaced, and its mid is the first mid |
| `RemoteSdpModel.GrowthIsNeeded` | rtc-sdk/deps/libmediasoupclient/src/sdp/RemoteSdp.cpp:130-145 | a step makes the table longer only when no slot is closed, except for an SCTP section, which is appended regardless |
| `RemoteSdpModel.LengthIsHighWater` | rtc-sdk/deps/libmediasoupclient/src/sdp/RemoteSdp.cpp:130-245 | over every run the number of m-lines is the largest number of simultaneously open sections, plus at most one for each SCTP section added while a slot was closed |
| `RemoteSdpModel.SendLandsWhereAnnounced` | rtc-sdk/deps/libmediasoupclient/src/Handler.cpp:204-345 | the index announced before the offer is where the answer section lands, also with a DTLS role change in between; every other m-line stays where it was |
| `RemoteSdpModel.DataLandsWhereAnnounced` | rtc-sdk/deps/libmediasoupclient/src/Handler.cpp:405-440 | the SCTP answer lands at the announced index if and only if no section is closed |
| `RemoteSdps.RemoteSdp.constructor` | rtc-sdk/deps/libmediasoupclient/src/sdp/RemoteSdp.cpp:14-88 | a new table is empty and has the given credentials and role; the new state, section objects included, is that of the state machine in `RemoteSdpModel` |
| `RemoteSdps.RemoteSdp.UpdateIceParameters` | rtc-sdk/deps/libmediasoupclient/src/sdp/RemoteSdp.cpp:90-108 | new credentials in every section object and in the mirror; the new state, section objects included, is that of the state machine in `RemoteSdpModel` |
| `RemoteSdps.RemoteSdp.UpdateDtlsRole` | rtc-sdk/deps/libmediasoupclient/src/sdp/RemoteSdp.cpp:110-128 | the role's setup in every answer section and in the mirror; the new state, section objects included, is that of the state machine in `RemoteSdpModel` |
| `RemoteSdps.RemoteSdp.GetNextMediaSectionIdx` | rtc-sdk/deps/libmediasoupclient/src/sdp/RemoteSdp.cpp:130-145 | the first closed section with its mid, or the end of the table; the new state, section objects included, is that of the state machine in `RemoteSdpModel` |
| `RemoteSdps.RemoteSdp.Send` | rtc-sdk/deps/libmediasoupclient/src/sdp/RemoteSdp.cpp:147-175 | the answer section replaces the named one or is appended; the new state, section objects included, is that of the state machine in `RemoteSdpModel` |
| `RemoteSdps.RemoteSdp.SendSctpAssociation` | rtc-sdk/deps/libmediasoupclient/src/sdp/RemoteSdp.cpp:177-191 | the SCTP answer section is appended; the new state, section objects included, is that of the state machine in `RemoteSdpModel` |
| `RemoteSdps.RemoteSdp.RecvSctpAssociation` | rtc-sdk/deps/libmediasoupclient/src/sdp/RemoteSdp.cpp:193-208 | the data channel offer section is appended; the new state, section objects included, is that of the state machine in `RemoteSdpModel` |
| `RemoteSdps.RemoteSdp.Receive` | rtc-sdk/deps/libmediasoupclient/src/sdp/RemoteSdp.cpp:210-245 | the offer section goes to the first closed slot or the end; the new state, section objects included, is that of the state machine in `RemoteSdpModel` |
| `RemoteSdps.RemoteSdp.CloseMediaSection` | rtc-sdk/deps/libmediasoupclient/src/sdp/RemoteSdp.cpp:257-276 | the section at the index the map yields (0 if the mid is unknown, which also enters the map) is closed, or only disabled when it is the first mid; mirror and BUNDLE follow; the new state, section objects included, is that of the state machine in `RemoteSdpModel` |
| `RemoteSdps.RemoteSdp.GetSdp` | rtc-sdk/deps/libmediasoupclient/src/sdp/RemoteSdp.cpp:278-288 | the version grows by one, as a 32-bit number, and the mirror and BUNDLE are what is written; the new state, section objects included, is that of the state machine in `RemoteSdpModel` |
| `RemoteSdps.RemoteSdp.AddMediaSection` | rtc-sdk/deps/libmediasoupclient/src/sdp/RemoteSdp.cpp:290-307 | section, index, first mid, mirror and BUNDLE after appending; the new state, section objects included, is that of the state machine in `RemoteSdpModel` |
| `RemoteSdps.RemoteSdp.ReplaceMediaSection` | rtc-sdk/deps/libmediasoupclient/src/sdp/RemoteSdp.cpp:309-349 | section, index, mirror and BUNDLE after replacing, for both branches; the new state, section objects included, is that of the state machine in `RemoteSdpModel` |
| `RemoteSdps.RemoteSdp.RegenerateBundleMids` | rtc-sdk/deps/libmediasoupclient/src/sdp/RemoteSdp.cpp:351-369 | the mids of the open sections joined by spaces; the new state, section objects included, is that of the state machine in `RemoteSdpModel` |
| `MediaSections.MediaSection.Answer` | rtc-sdk/deps/libmediasoupclient/src/sdp/MediaSection.cpp:111-397 | mid, kind, setup for the role, credentials, payload types cut to 8 bits, extensions the offer also has, RIDs turned to be received |
| `MediaSections.MediaSection.Offer` | rtc-sdk/deps/libmediasoupclient/src/sdp/MediaSection.cpp:411-589 | mid, kind, actpass setup, credentials, direction, payload types cut to 8 bits, extensions, SSRC lines |
| `MediaSections.MediaSection.SetIceParameters` | rtc-sdk/deps/libmediasoupclient/src/sdp/MediaSection.cpp:75-81 | only the credentials change |
| `MediaSections.MediaSection.SetDtlsRole` | rtc-sdk/deps/libmediasoupclient/src/sdp/MediaSection.cpp:399-409 | only the setup changes: an answer section follows a known role and ignores others, an offer section is actpass |
| `MediaSections.MediaSection.Disable` | rtc-sdk/deps/libmediasoupclient/src/sdp/MediaSection.cpp:83-94 | inactive, without extensions, SSRCs, simulcast and RIDs; the port stays |
| `MediaSections.MediaSection.Close` | rtc-sdk/deps/libmediasoupclient/src/sdp/MediaSection.cpp:96-109 | port zero and inactive, without extensions, SSRCs, simulcast, RIDs and mixed extension maps |
| `MediaSections.AnswerAnswers` | rtc-sdk/deps/libmediasoupclient/src/sdp/MediaSection.cpp:111-397 | an answer section is open, has the mid, kind and protocol of the offered one, and for audio and video is recvonly, lists each payload type cut to 8 bits, has of the extensions exactly those offered too, in order, and the offered send RIDs as recv RIDs |
| `MediaSections.OfferOffers` | rtc-sdk/deps/libmediasoupclient/src/sdp/MediaSection.cpp:411-589 | an offer section is open under the given mid and kind, and for audio and video is sendonly, lists the payload types cut to 8 bits, and has a cname and a msid line, with stream and track id, for the SSRC and for its RTX SSRC, which a FID group pairs |
| `HandlerModel.ReceiveHolds` | rtc-sdk/deps/libmediasoupclient/src/Handler.cpp:634-709 | receiving on a mid that may enter leaves a coherent table that holds it open, keeps every other open section, and records it in the mid map |
| `HandlerModel.SendHolds` | rtc-sdk/deps/libmediasoupclient/src/Handler.cpp:170-363 | sending puts the new section at the announced index, open, and keeps every other open section, also through the first call's role change |
| `HandlerModel.StopHolds` | rtc-sdk/deps/libmediasoupclient/src/Handler.cpp:450-484 | stopping a mapped, indexed mid leaves a coherent table in which every other m-line is unchanged |
| `HandlerModel.StopCloses` | rtc-sdk/deps/libmediasoupclient/src/Handler.cpp:450-484 | stopping closes the mid's own section as `CloseCloses` says, so it is no longer open unless it is the first |
| `HandlerModel.ReceivedSectionOffers` | rtc-sdk/deps/libmediasoupclient/src/Handler.cpp:634-709 | a received track has, at the place of its mid, a section that offers it under the consumer id and with the cname as stream id |
| `HandlerModel.SentSectionAnswers` | rtc-sdk/deps/libmediasoupclient/src/Handler.cpp:204-345 | a sent track has, at the announced place, a section that answers the offered one |
| `HandlerModel.ReceiveDataHolds` | rtc-sdk/deps/libmediasoupclient/src/Handler.cpp:711-768 | the first data channel adds the section `datachannel`, later ones none; open sections stay |
| `HandlerModel.SendDataHolds` | rtc-sdk/deps/libmediasoupclient/src/Handler.cpp:365-448 | the first data channel adds its section, later ones none; open sections stay |
| `HandlerModel.RestartIceHolds` | rtc-sdk/deps/libmediasoupclient/src/Handler.cpp:824-850 | an ICE restart keeps the table coherent and every open section open |
| `Handlers.Handler.constructor` | rtc-sdk/deps/libmediasoupclient/src/Handler.cpp:61-82 | a handler that is not ready, without mids; a DTLS role other than auto, if there is one, forces the opposite local role; the new state, down to the objects of the sections, is that of `HandlerModel` |
| `Handlers.Handler.SetupTransport` | rtc-sdk/deps/libmediasoupclient/src/Handler.cpp:127-147 | the remote side takes the opposite DTLS role, and the transport is ready; the new state, down to the objects of the sections, is that of `HandlerModel` |
| `Handlers.Handler.Receive` | rtc-sdk/deps/libmediasoupclient/src/Handler.cpp:634-709 | the local id is the given mid or the size of the mid map; the table and the map get it; the new state, down to the objects of the sections, is that of `HandlerModel` |
| `Handlers.Handler.ReceiveDataChannel` | rtc-sdk/deps/libmediasoupclient/src/Handler.cpp:711-768 | the data section is added at most once; the new state, down to the objects of the sections, is that of `HandlerModel` |
| `Handlers.Handler.Send` | rtc-sdk/deps/libmediasoupclient/src/Handler.cpp:170-363 | the table gets the answer at the announced index; the map gets the offered mid; the new state, down to the objects of the sections, is that of `HandlerModel` |
| `Handlers.Handler.SendDataChannel` | rtc-sdk/deps/libmediasoupclient/src/Handler.cpp:365-448 | the data section is added at most once, and the stream number goes on modulo 1024; the new state, down to the objects of the sections, is that of `HandlerModel` |
| `Handlers.Handler.Stop` | rtc-sdk/deps/libmediasoupclient/src/Handler.cpp:450-484 | an unknown local id is refused and nothing changes; otherwise its section is closed; the new state, down to the objects of the sections, is that of `HandlerModel` |
| `Handlers.Handler.RestartIce` | rtc-sdk/deps/libmediasoupclient/src/Handler.cpp:589-617 | new credentials; a handler that is not ready renegotiates nothing; the new state, down to the objects of the sections, is that of `HandlerModel` |
| `Endpoints.EnlistKeeps` | rtc-sdk/deps/libmediasoupclient/src/Transport.cpp:433-444 | adding to the map keeps it exactly the open members if and only if the id is not in use |
| `Endpoints.StrikeKeeps` | rtc-sdk/deps/libmediasoupclient/src/Producer.cpp:99-109 | a member's close keeps the map exactly the open members, also when it is closed twice |
| `Endpoints.ShutKeeps` | rtc-sdk/deps/libmediasoupclient/src/Transport.cpp:303-327 | closing the transport leaves every member closed |
| `Endpoints.NotifiedOnce` | rtc-sdk/deps/libmediasoupclient/src/Producer.cpp:216-226 | over any run a member has been told of the transport's close once if it was open at the first close, and never otherwise |
| `Endpoints.StopIsSafe` | rtc-sdk/deps/libmediasoupclient/src/Handler.cpp:770-803 | stopping a live member's section changes only that m-line, and every other live member has a different, open one |
| `RecvModel.RunInv` | rtc-sdk/deps/libmediasoupclient/src/Transport.cpp:405-547 | in every run of consume, consumer close, data consume, ICE restart and transport close: the table is coherent, live consumers own distinct open sections, the map is exactly the live consumers while the transport is open and none is live afterwards |
| `RecvModel.EveryCloseIsSafe` | rtc-sdk/deps/libmediasoupclient/src/Transport.cpp:536-547 | in every run, closing an open consumer names a mid that is indexed and open, closes its section (or only silences it if it is the first) without an exception, and every other live consumer keeps its index, its section and everything in it, also after slots were recycled |
| `RecvModel.ConsumesIff` | rtc-sdk/deps/libmediasoupclient/src/Transport.cpp:405-444 | a consume goes through exactly when the transport is open, the ids are not empty, the kind is audio or video, the parameters are there and valid, the application data is an object, and the first payload type is the remote one of an extended codec |
| `RecvModel.OthersGoThroughIff` | rtc-sdk/deps/libmediasoupclient/src/Transport.cpp:475-490 | a data consume goes through exactly on an open transport with both ids and SCTP, an ICE restart on an open transport, a close always |
| `RecvModel.CloseThrowsIff` | rtc-sdk/deps/libmediasoupclient/src/Transport.cpp:536-547 | closing a consumer throws exactly when it is the first close, the transport is open and its local id is not in the mid map |
| `RecvModel.EveryConsumerIsOffered` | rtc-sdk/deps/libmediasoupclient/src/Transport.cpp:405-470 | in every run a consume that goes through leaves a section offering its track under its id, lists the consumer, and with the first video consumer also leaves the probator section |
| `RecvModel.RoleInRun` | rtc-sdk/deps/libmediasoupclient/src/Handler.cpp:61-82 | in any run at all, the sections are offers and are made once the transport is ready; the remote role is then the one given, or server if none or auto was |
| `RecvModel.ConsumersToldOnce` | rtc-sdk/deps/libmediasoupclient/src/Consumer.cpp:158-168 | in every run each consumer hears of the transport's close exactly once if it was open then, and never otherwise, and all are closed after it |
| `RecvNaming.NumeralsBounded` | rtc-sdk/deps/libmediasoupclient/src/Handler.cpp:641-648 | in every run a numeral in the mid map is below the map's size unless a caller gave it |
| `RecvNaming.GeneratedMidTakenIffGiven` | rtc-sdk/deps/libmediasoupclient/src/Handler.cpp:641-648 | in every run, allowed or not, the mid taken from the map's size is already in the map if and only if an earlier call gave that very mid |
| `RecvNaming.GivenNumeralCollides` | rtc-sdk/deps/libmediasoupclient/src/Handler.cpp:641-648 | in any run whose first call consumes audio under the mid 1, the mid generated next is 1 again and may not enter the table; after a first video consumer it is 2, because of the probator |
| `RecvNaming.ReservedAreNoNumerals` | rtc-sdk/deps/libmediasoupclient/src/Transport.cpp:446-467 | the names of the probator and the data channel are not numerals |
| `RecvNaming.TidyRunIsSafe` | rtc-sdk/deps/libmediasoupclient/src/Transport.cpp:405-467 | if callers give unused, unreserved mids that are not numerals and ids that are not live, then in every run all calls are allowed, and the next generated mid is new to the map and to the table, the probator and data channel included |
| `SendModel.RunInv` | rtc-sdk/deps/libmediasoupclient/src/Transport.cpp:175-340 | in every run of produce (accepted, rejected or broken by the listener), producer close, data produce, ICE restart and transport close: the table is coherent, live producers own distinct open sections, the map is exactly the live producers while open, and no local id is stopped twice |
| `SendModel.StopsOnlyWhileOpen` | rtc-sdk/deps/libmediasoupclient/src/Transport.cpp:238-251 | a call stops a sender only while the transport is open, only one, and only for a rejected produce or the first close of that producer |
| `SendModel.NoStopAfterClose` | rtc-sdk/deps/libmediasoupclient/src/Transport.cpp:303-340 | after the transport's close no sender is stopped any more |
| `SendModel.EveryCloseIsSafe` | rtc-sdk/deps/libmediasoupclient/src/Transport.cpp:329-340 | in every run, closing an open producer names an indexed, open mid, closes its section (or only silences it if it is the first) and changes no other m-line |
| `SendModel.SendsIff` | rtc-sdk/deps/libmediasoupclient/src/Transport.cpp:175-194 | a produce sends exactly when the transport is open, there is a live track of kind audio or video, and a codec is picked |
| `SendModel.OthersGoThroughIff` | rtc-sdk/deps/libmediasoupclient/src/Transport.cpp:253-275 | a data produce goes through exactly with SCTP, at most one limit, and none if ordered, whether or not the transport is open; an ICE restart on an open transport, a close always |
| `SendModel.CloseThrowsIff` | rtc-sdk/deps/libmediasoupclient/src/Transport.cpp:329-340 | closing a producer throws exactly when it is the first close, the transport is open and its local id is not in the mid map |
| `SendModel.EveryProducerIsAnswered` | rtc-sdk/deps/libmediasoupclient/src/Transport.cpp:175-251 | in every run a produce that is not rejected leaves an answer to the offered section at the announced place, and a producer is listed exactly if it was accepted |
| `SendModel.SetupsInRun` | rtc-sdk/deps/libmediasoupclient/src/Handler.cpp:127-147 | in every run of a transport made with a given role, every section is an answer made once the transport is ready, and says passive if the role was server, active if it was none, auto, client or anything else |
| `SendModel.UnsendableChangesIff` | rtc-sdk/deps/libmediasoupclient/src/Handler.cpp:193-279 | a produce of a kind that cannot be sent, without a capability, passes the checks, fails, and still sets the transport up: it changes the transport exactly when the transport was not ready; then the role is set and the transport ready, but no m-line is made, opened, closed or renamed, no producer is listed and nothing is stopped |
| `SendModel.RejectedProduceIsSafe` | rtc-sdk/deps/libmediasoupclient/src/Transport.cpp:222-236 | in every run, a rejected produce closes the section it has just made, which is indexed and open, changes no other m-line, and every live producer keeps its open section at its index |
| `SendModel.AnswersKnowTheRole` | rtc-sdk/deps/libmediasoupclient/src/Handler.cpp:127-147 | in every run, whatever DTLS role was given or none, an answer section is made with a role that has a setup value |
| `SendModel.StreamSharedIff` | rtc-sdk/deps/libmediasoupclient/src/Handler.cpp:370-401 | in every run the stream of a data channel is the number of data channels before it modulo 1024, so two channels share a stream exactly when the numbers of channels before them differ by a multiple of 1024 |
| `SendModel.ProducersToldOnce` | rtc-sdk/deps/libmediasoupclient/src/Producer.cpp:216-226 | in every run each producer hears of the transport's close exactly once if it was open then, and never otherwise; a producer is open exactly when the transport is and the map has it; and no local id is stopped twice |
| `Transports.Member.MarkClosed` | rtc-sdk/deps/libmediasoupclient/src/Producer.cpp:99-109 | the first close is told apart from later ones |
| `Transports.Member.TransportClosed` | rtc-sdk/deps/libmediasoupclient/src/Consumer.cpp:158-168 | an open member becomes closed and hears of it; a closed one does not |
| `Transports.Registry.Add` | rtc-sdk/deps/libmediasoupclient/src/Transport.cpp:433-444 | the new member is in the map, open and untold |
| `Transports.Registry.Strike` | rtc-sdk/deps/libmediasoupclient/src/Transport.cpp:329-340 | the member is closed and, the first time, out of the map |
| `Transports.Registry.CloseAll` | rtc-sdk/deps/libmediasoupclient/src/Transport.cpp:303-327 | every member in the map is told, whatever the order of the walk |
| `Transports.RecvTransport.Consume` | rtc-sdk/deps/libmediasoupclient/src/Transport.cpp:405-470 | refused with the right error and no change (closed, missing id, producer or parameters, bad kind, application data or parameters, or codecs that cannot be received), or the consumer is made, listed and given its local id; the first video consumer also starts the probator; the new state is that of `RecvModel` |
| `Transports.RecvTransport.CloseConsumer` | rtc-sdk/deps/libmediasoupclient/src/Transport.cpp:536-547 | the first close stops the receiver and passes its exception on, later ones do nothing; the new state is that of `RecvModel` |
| `Transports.RecvTransport.Close` | rtc-sdk/deps/libmediasoupclient/src/Transport.cpp:510-534 | closes the transport once and tells the consumers; the new state is that of `RecvModel` |
| `Transports.RecvTransport.ConsumeData` | rtc-sdk/deps/libmediasoupclient/src/Transport.cpp:475-508 | refused with the right error, or the data section exists; the new state is that of `RecvModel` |
| `Transports.RecvTransport.RestartIce` | rtc-sdk/deps/libmediasoupclient/src/Transport.cpp:72-80 | refused on a closed transport, otherwise passed on; the new state is that of `RecvModel` |
| `Transports.SendTransport.Produce` | rtc-sdk/deps/libmediasoupclient/src/Transport.cpp:175-251 | refused with the right error and no change, also when the codec options do not validate or the codec reduction throws; a null codec fails after the transport is set up; a rejected track is stopped again, a broken callback leaves its section open, an accepted one is listed; the new state is that of `SendModel` |
| `Transports.SendTransport.CloseProducer` | rtc-sdk/deps/libmediasoupclient/src/Transport.cpp:329-340 | the first close stops the sender and passes its exception on, later ones do nothing; the new state is that of `SendModel` |
| `Transports.SendTransport.Close` | rtc-sdk/deps/libmediasoupclient/src/Transport.cpp:303-327 | closes the transport once and tells the producers; the new state is that of `SendModel` |
| `Transports.SendTransport.ProduceData` | rtc-sdk/deps/libmediasoupclient/src/Transport.cpp:253-301 | refused without SCTP, with both limits set, or ordered with a limit; otherwise the data section exists and the stream number is returned; the new state is that of `SendModel` |
| `Transports.SendTransport.RestartIce` | rtc-sdk/deps/libmediasoupclient/src/Transport.cpp:72-80 | refused on a closed transport, otherwise passed on; the new state is that of `SendModel` |
| `Text.Split` | rtc-sdk/deps/libmediasoupclient/include/Utils.hpp:81-91 | the tokens between delimiters; the empty string has none, and a trailing delimiter starts none |
| `Text.Join` | rtc-sdk/deps/libmediasoupclient/include/Utils.hpp:93-106 | the strings with a delimiter between any two |
| `Text.JoinNumbers` | rtc-sdk/deps/libmediasoupclient/include/Utils.hpp:108-121 | the decimal forms with a delimiter between any two |
| `Text.SplitUndoesJoin` | rtc-sdk/deps/libmediasoupclient/include/Utils.hpp:81-106 | splitting undoes joining if and only if no string contains the delimiter and the last one is not empty |
| `Text.JoinAfterSplit` | rtc-sdk/deps/libmediasoupclient/include/Utils.hpp:81-106 | joining undoes splitting but for one trailing delimiter |
| `Text.StoullOfDecimal` | rtc-sdk/deps/libmediasoupclient/include/Utils.hpp:108-121 | reading the decimal form of a number gives the number back |
| `Ssrc.OfferMediaObject.AddLegacySimulcast` | rtc-sdk/deps/libmediasoupclient/src/sdp/Utils.cpp:220-386 | the offer gets the lines and groups of n consecutive streams and their retransmissions, modulo 2^32, or is left alone with the right error |
| `Ssrc.OfferMediaObject.GetRtpEncodings` | rtc-sdk/deps/libmediasoupclient/src/sdp/Utils.cpp:413-476 | the encodings read from the lines and groups, or an error for a group whose numbers do not parse |
| `Ssrc.SimulcastRoundTrip` | rtc-sdk/deps/libmediasoupclient/src/sdp/Utils.cpp:220-476 | for any offer that is accepted and any n from 2 to 255, reading back what legacy simulcast wrote never fails and gives exactly the n encodings written if and only if there is no RTX or the two SSRC ranges are apart modulo 2^32 |
| `Ssrc.SimulcastSucceedsIff` | rtc-sdk/deps/libmediasoupclient/src/sdp/Utils.cpp:220-299 | legacy simulcast succeeds exactly when it finds a msid line, a readable RTX partner of its SSRC or none, and a cname line |
| `Ssrc.FirstWithIs` | rtc-sdk/deps/libmediasoupclient/src/sdp/Utils.cpp:226-299 | the line that is found is the first with the attribute |
| `Ssrc.FirstRtxIs` | rtc-sdk/deps/libmediasoupclient/src/sdp/Utils.cpp:262-282 | the RTX partner is the second number of the first group that starts with the SSRC, and 0 if there is none |
| `Ssrc.SimulcastGroups` | rtc-sdk/deps/libmediasoupclient/src/sdp/Utils.cpp:311-366 | the written groups are one SIM group, the first, which split at spaces names the n SSRCs counted from the first one modulo 2^32, in order, and FID groups that pair each with its own RTX SSRC, if there is one |
| `Ssrc.SimulcastLines` | rtc-sdk/deps/libmediasoupclient/src/sdp/Utils.cpp:328-384 | the written lines are, for each of these numbers in turn, one with the cname that was found and one with the stream and track id that were found, and no others |
| `Ssrc.OneLineEachIff` | rtc-sdk/deps/libmediasoupclient/src/sdp/Utils.cpp:328-384 | each written SSRC has exactly one cname line and one msid line if and only if there is no RTX or the two ranges stay apart modulo 2^32 |
| `Ssrc.RangesMeetUnlessApart` | rtc-sdk/deps/libmediasoupclient/src/sdp/Utils.cpp:303-309 | the arithmetic test for ranges apart is right: it says that no SSRC is in both |
| `Ssrc.OverlapLosesOne` | rtc-sdk/deps/libmediasoupclient/src/sdp/Utils.cpp:413-476 | an SSRC in both ranges is lost when read back |
| `Ssrc.EncodingsOfWritten` | rtc-sdk/deps/libmediasoupclient/src/sdp/Utils.cpp:311-476 | what is read back from the written lines, for any list of streams and any shorter list of retransmissions |
| `Ssrc.OfferLinesRoundTrip` | rtc-sdk/deps/libmediasoupclient/src/sdp/MediaSection.cpp:541-581 | reading the SSRC lines of an offer section gives its one encoding if and only if there is a cname and the RTX SSRC, if any, is neither zero nor the media SSRC |
| `Ssrc.SimulcastOfOneStream` | rtc-sdk/deps/libmediasoupclient/src/sdp/Utils.cpp:220-386 | simulcast over the lines of an offer section gives the consecutive streams after its own SSRCs, with the same cname and msid |
| `Ssrc.ListUnique` | rtc-sdk/deps/libmediasoupclient/src/sdp/Utils.cpp:426-426 | removes consecutive repeats, as the list does |
| `Validators.ValidateCapsTwice` | rtc-sdk/deps/libmediasoupclient/src/ortc.cpp:39-80 | validating capabilities is idempotent: a second pass accepts and changes nothing, for every JSON value the first pass accepts |
| `Validators.ValidatedIsFilled` | rtc-sdk/deps/libmediasoupclient/src/ortc.cpp:87-172 | an accepted codec has every default filled in, and channels exactly when it is audio |
| `Validators.DefaultsKeep` | rtc-sdk/deps/libmediasoupclient/src/ortc.cpp:87-172 | filling defaults changes no other member, and no channel count, parameters or feedback of the right type |
| `Accepted.FbAcceptedIff` | rtc-sdk/deps/libmediasoupclient/src/ortc.cpp:179-196 | feedback is accepted exactly when it has a type; its parameter defaults to the empty text |
| `Accepted.CodecAcceptedIff` | rtc-sdk/deps/libmediasoupclient/src/ortc.cpp:87-172 | a codec capability is accepted exactly when its MIME type is audio or video with a subtype, it has a clock rate, its payload type if any is an integer, its parameters are texts, numbers or null with an integer apt, and its feedback is good |
| `Accepted.CodecBecomes` | rtc-sdk/deps/libmediasoupclient/src/ortc.cpp:87-172 | it gets the kind its MIME type spells, 1 channel if it is audio without a count and none otherwise, empty parameters and feedback where they are missing or of another type, and keeps everything else |
| `Accepted.ExtAcceptedIff` | rtc-sdk/deps/libmediasoupclient/src/ortc.cpp:203-245 | a header extension is accepted exactly when kind, URI and id are there and the rest is of the right type; it is unencrypted and sendrecv by default |
| `Accepted.CapsAcceptedIff` | rtc-sdk/deps/libmediasoupclient/src/ortc.cpp:39-80 | capabilities are accepted exactly when both lists, where present, are arrays of accepted entries; a missing list becomes empty |
| `Accepted.CodecParamsAcceptedIff` | rtc-sdk/deps/libmediasoupclient/src/ortc.cpp:331-416 | codec parameters are accepted as capabilities are, but must have a payload type |
| `Accepted.ExtParamsAcceptedIff` | rtc-sdk/deps/libmediasoupclient/src/ortc.cpp:423-465 | extension parameters are accepted exactly when URI and id are there and the rest is of the right type; unencrypted and without parameters by default |
| `Accepted.EncodingAcceptedIff` | rtc-sdk/deps/libmediasoupclient/src/ortc.cpp:472-523 | an encoding is accepted exactly when the fields it has are of the right type and its texts are not empty; dtx is false by default |
| `Accepted.RtcpAcceptedIff` | rtc-sdk/deps/libmediasoupclient/src/ortc.cpp:530-547 | RTCP parameters are accepted exactly when the cname, if any, is a text; reducedSize is true by default |
| `Accepted.ParamsAcceptedIff` | rtc-sdk/deps/libmediasoupclient/src/ortc.cpp:252-324 | RTP parameters are accepted exactly when the mid, if any, is a text that is not empty, the codecs are there, and all entries are accepted |
| `Ortc.ExtendedFollowsRemoteOrder` | rtc-sdk/deps/libmediasoupclient/src/ortc.cpp:1001-1073 | whenever the negotiation goes through, the extended codecs are, in remote order, exactly the remote codecs that are not RTX and find a partner in the state left by the earlier matches; each has the format and payload type of its local partner as given, the remote payload type as given, the parameters of each side (but for the H264 profile, which on both sides is the one the comparison answered, or none), the common feedback of the two, and the payload types of the first RTX codecs for it on both sides as given, or none |
| `Ortc.ThrowsIff` | rtc-sdk/deps/libmediasoupclient/src/ortc.cpp:1004-1041 | the negotiation throws exactly when the turn of some remote codec comes, before a match, to a local codec of the same format where a VP9 profile or, with equal packetization modes, an H264 profile cannot be read |
| `Ortc.ThrowsIffGiven` | rtc-sdk/deps/libmediasoupclient/src/ortc.cpp:1798-1812 | where no comparison would come to an unreadable H264 profile, whether it throws is decided by the two lists as given, for each comparison of profiles |
| `Ortc.ThrowsBetween` | rtc-sdk/deps/libmediasoupclient/src/ortc.cpp:1619-1709 | with no such condition and for every comparison of profiles: it throws if some remote codec comes, in the lists as given, to an unreadable profile before any codec it could match; and only if some remote codec comes to one before any codec it matches whatever the comparison says |
| `Ortc.ThrowsForEveryIff` | rtc-sdk/deps/libmediasoupclient/src/ortc.cpp:1619-1709 | both bounds are exact: the first says when the negotiation throws for every comparison of profiles, the second when it throws for some |
| `Ortc.KeptIffMatchesGiven` | rtc-sdk/deps/libmediasoupclient/src/ortc.cpp:1004-1041 | other than for H264, a remote codec has a partner exactly when it is not RTX and some local codec as given matches it: earlier matches do not matter |
| `Ortc.MatchIsEquivalence` | rtc-sdk/deps/libmediasoupclient/src/ortc.cpp:1619-1709 | other than for H264, matching is an equivalence on the codecs whose profile can be read; it joins only codecs of one MIME type in any case, one clock rate and one channel count, and VP9 codecs of one profile |
| `Ortc.Vp9ProfileReads` | rtc-sdk/deps/libmediasoupclient/src/ortc.cpp:1798-1812 | a VP9 profile is a text, an integer in decimal, 0 if absent, and unreadable if null |
| `Ortc.RewritingIsProfileOnly` | rtc-sdk/deps/libmediasoupclient/src/ortc.cpp:1619-1709 | of what is read from the codecs, matching rewrites nothing but H264 profiles, and no remote codec before its turn; what it adds to the objects is in `OrtcAgain` |
| `OrtcAgain.LeftBehindValidIff` | rtc-sdk/deps/libmediasoupclient/src/ortc.cpp:1014-1073 | the two capability objects are changed in place: profiles are rewritten, and looking up a payload type that is missing inserts a null; after a negotiation that goes through, either object validates again exactly when every codec of it whose payload type was looked up (a kept remote codec, its partner, or an RTX codec found on both sides) came with one, and then it is unchanged by validation and reads as the matching left it |
| `OrtcAgain.UnnumberedNotValidAgain` | rtc-sdk/deps/libmediasoupclient/src/ortc.cpp:1031-1033 | an opus codec without a payload type negotiates with itself, and neither object validates again |
| `Ortc.CommonFeedbackIsIntersection` | rtc-sdk/deps/libmediasoupclient/src/ortc.cpp:1721-1741 | the reduced feedback is the local feedback that the remote side has too, with the local multiplicity |
| `Ortc.CommonFeedbackInOrder` | rtc-sdk/deps/libmediasoupclient/src/ortc.cpp:1721-1741 | and it keeps the local order |
| `Ortc.RtxIsPairedIff` | rtc-sdk/deps/libmediasoupclient/src/ortc.cpp:1043-1073 | the two RTX payload types of an extended codec are both set or both unset exactly when one side has no RTX codec for it, or the two RTX codecs as given both have a payload type, or neither has |
| `Ortc.ReduceRtcpFeedback` | rtc-sdk/deps/libmediasoupclient/src/ortc.cpp:1721-1741 | the loop computes the common feedback |
| `Ortc.MatchMediaCodecs` | rtc-sdk/deps/libmediasoupclient/src/ortc.cpp:1001-1041 | the matching loop, with its rewriting of both lists in place and its way out by an exception, computes the threaded matching |
| `Ortc.MatchRtxCodecs` | rtc-sdk/deps/libmediasoupclient/src/ortc.cpp:1043-1073 | the RTX loop sets both RTX payload types where both sides have one |
| `Ortc.MatchHeaderExtensions` | rtc-sdk/deps/libmediasoupclient/src/ortc.cpp:1075-1116 | the extensions both sides have, in remote order, with known directions turned and unknown ones left unset |
| `Ortc.GetExtendedRtpCapabilities` | rtc-sdk/deps/libmediasoupclient/src/ortc.cpp:982-1119 | the three loops together compute the extended capabilities, or throw exactly when the negotiation does not go through |
| `OrtcParams.ExtendedIsGood` | rtc-sdk/deps/libmediasoupclient/src/ortc.cpp:982-1119 | whatever is negotiated, each extended codec is well-formed, not RTX, and has an RTX payload type on either side only with both payload types |
| `OrtcParams.DirectedIff` | rtc-sdk/deps/libmediasoupclient/src/ortc.cpp:1104-1113 | the directions of the extended extensions can all be read exactly when every remote extension that the local side has too came with a known direction |
| `OrtcParams.GetRecvRtpCapabilities` | rtc-sdk/deps/libmediasoupclient/src/ortc.cpp:1125-1207 | the loops compute the receive capabilities |
| `OrtcParams.RecvRtxFollows` | rtc-sdk/deps/libmediasoupclient/src/ortc.cpp:1125-1207 | in receive capabilities every RTX codec directly follows its media codec and refers to it by the low 8 bits of its payload type |
| `OrtcParams.AptIsPayloadTypeIff` | rtc-sdk/deps/libmediasoupclient/src/ortc.cpp:1163-1180 | the reference is the payload type itself if and only if that is below 256 |
| `OrtcParams.AdvertisedIsReceivable` | rtc-sdk/deps/libmediasoupclient/src/ortc.cpp:1544-1562 | a payload type is that of an advertised codec other than RTX exactly when some extended codec has it |
| `OrtcParams.CanReceiveIffAdvertised` | rtc-sdk/deps/libmediasoupclient/src/ortc.cpp:1544-1562 | parameters can be received exactly when their first codec's payload type is that of an advertised codec other than RTX |
| `OrtcSending.GetSendingRtpParameters` | rtc-sdk/deps/libmediasoupclient/src/ortc.cpp:1214-1303 | the loops compute the local sending parameters |
| `OrtcSending.GetSendingRemoteRtpParameters` | rtc-sdk/deps/libmediasoupclient/src/ortc.cpp:1308-1470 | the loops, with erasure from the feedback lists, compute the remote sending parameters |
| `OrtcSending.EraseFeedback` | rtc-sdk/deps/libmediasoupclient/src/ortc.cpp:1407-1467 | the erasing loop leaves exactly the feedback of other types, in order |
| `OrtcSending.SidesAgree` | rtc-sdk/deps/libmediasoupclient/src/ortc.cpp:1214-1470 | for any two capability sets that negotiate, the two separate loops agree: local and remote parameters have at most two codecs, agree entry by entry on mime type, payload type, clock rate, channels and RTX reference, the second is the RTX codec, and there are codecs exactly when the kind can be sent |
| `OrtcSending.WithoutIsSelection` | rtc-sdk/deps/libmediasoupclient/src/ortc.cpp:1407-1467 | the remote feedback is a selection of the local one |
| `OrtcSending.WithoutInOrder` | rtc-sdk/deps/libmediasoupclient/src/ortc.cpp:1407-1467 | and keeps its order |
| `OrtcSending.OneBandwidthScheme` | rtc-sdk/deps/libmediasoupclient/src/ortc.cpp:1396-1470 | the remote feedback is the local one without the dropped types, and never has both goog-remb and transport-cc |
| `OrtcGiven.ExtsFromGiven` | rtc-sdk/deps/libmediasoupclient/src/ortc.cpp:1075-1116 | the extended extensions are, in remote order, exactly the remote ones the local side has too, with the first local id as send id and its encryption, the remote id as receive id, and the direction turned around, unset if unknown |
| `OrtcGiven.RecvExtsFromGiven` | rtc-sdk/deps/libmediasoupclient/src/ortc.cpp:1183-1207 | the receive capabilities list, in remote order, exactly the shared extensions that the remote side sends with, under the remote id |
| `OrtcGiven.SendExtsFromGiven` | rtc-sdk/deps/libmediasoupclient/src/ortc.cpp:1279-1303 | the sending parameters list, in remote order, exactly the shared extensions of the kind that the remote side receives with, under the local id |
| `OrtcGiven.RecvCodecFromGiven` | rtc-sdk/deps/libmediasoupclient/src/ortc.cpp:1125-1181 | the receive capabilities are built in remote order: the entry of each kept remote codec has the format and parameters of its local partner, the remote payload type and the common feedback, and an RTX codec with the remote RTX payload type behind it exactly if there is one |
| `OrtcGiven.SendCodecFromGiven` | rtc-sdk/deps/libmediasoupclient/src/ortc.cpp:1214-1395 | both sending sides use the first kept codec of the kind, with the format and payload type of its local partner; the local side has the local parameters, the remote side the remote ones |
| `OrtcGiven.RemoteFeedbackIs` | rtc-sdk/deps/libmediasoupclient/src/ortc.cpp:1396-1470 | the remote feedback is, in order and with its multiplicity, exactly the local feedback but transport-cc without the transport-wide-cc extension, and goog-remb without abs-send-time or with transport-wide-cc |
| `OrtcSending.ReduceCodecs` | rtc-sdk/deps/libmediasoupclient/src/ortc.cpp:1564-1599 | the loop picks the first codec, or the first that matches, with the RTX codec behind it, or fails as the code does |
| `OrtcSending.ReduceWorksIff` | rtc-sdk/deps/libmediasoupclient/src/ortc.cpp:1564-1599 | on sending parameters the reduction works without a capability exactly when the kind can be sent, and picks a null otherwise, without an exception; and it works with one exactly when the codec matches it and has an RTX codec behind it: the entry after the last codec is read unguarded |
| `OrtcSending.SidesReduceAlike` | rtc-sdk/deps/libmediasoupclient/src/ortc.cpp:1564-1599 | reducing both sides by the same capability picks agreeing codecs, or fails alike |
| `OrtcSending.AnswerLookupSucceeds` | rtc-sdk/deps/libmediasoupclient/src/sdp/MediaSection.cpp:174-180 | every answered codec is found among the offered ones, so the unchecked lookup is safe |
| `OrtcJson.ValidatedCapsRead` | rtc-sdk/deps/libmediasoupclient/src/ortc.cpp:39-80 | every accepted JSON capability set has the shape the negotiation reads |
| `OrtcJson.WrittenCapsPassIff` | rtc-sdk/deps/libmediasoupclient/src/ortc.cpp:39-245 | capabilities written as JSON pass the validator exactly when every codec has a payload type |
| `OrtcJson.CapsReadBack` | rtc-sdk/deps/libmediasoupclient/src/ortc.cpp:39-245 | capabilities written as JSON read back as they were |
| `OrtcJson.ReceiveClosure` | rtc-sdk/deps/libmediasoupclient/src/ortc.cpp:982-1207 | any two JSON capability sets that validate can be negotiated exactly when their RTX codecs carry apt, which the code takes for granted; the negotiation goes through exactly when no turn throws, and on the lists as given within the two bounds of `ThrowsBetween`; then directions can be read exactly when the shared extensions had known ones, and the receive capabilities pass the validator exactly when every extended codec has a remote payload type |
| `OrtcJson.NullProfileThrows` | rtc-sdk/deps/libmediasoupclient/src/ortc.cpp:1798-1812 | a VP9 codec with a null profile-id and an H264 codec with a null profile-level-id pass the validator unchanged, and negotiating either with itself throws, for every comparison of profiles |
| `RtpParameters.ValidateParamsTwice` | rtc-sdk/deps/libmediasoupclient/src/ortc.cpp:252-324 | validating RTP parameters is idempotent, for every JSON value the first pass accepts |
| `RtpParameters.SendClosure` | rtc-sdk/deps/libmediasoupclient/src/Handler.cpp:193-338 | for any two JSON capability sets that validate and negotiate, any SSRC lines that can be read and any encodings given by the application, the parameters put together by a sender pass the validator that `Produce` runs exactly when the mid is not empty, the sent codec has a local payload type, and no given scalability mode is empty, unless simulcast of VP8 or H264 replaces them all |
| `OrtcJson.RemotelyNumberedIff` | rtc-sdk/deps/libmediasoupclient/src/ortc.cpp:1004-1041 | which is the case exactly when every kept remote codec came with a payload type |
| `LazyClass.RunInv` | rtc-sdk/src/main/jni/jni_generator_helper.cpp:21-42 | for any number of threads and any interleaving of their steps: the published reference is live, unpublished ones belong to one thread each, and returned ones are the published one |
| `LazyClass.PublishedForGood` | rtc-sdk/src/main/jni/jni_generator_helper.cpp:21-42 | a published reference is never replaced and never deleted |
| `LazyClass.AllReturnTheSame` | rtc-sdk/src/main/jni/jni_generator_helper.cpp:21-42 | any two calls that returned, at any two moments, returned the same live reference |
| `LazyClass.OneReferenceRemains` | rtc-sdk/src/main/jni/jni_generator_helper.cpp:21-42 | when all threads have returned exactly one global reference is live, the one they returned |
| `LazyClass.LiveCount` | rtc-sdk/src/main/jni/jni_generator_helper.cpp:21-42 | at every moment the live references are one for each thread that has looked up but not finished, plus the published one |
| `LazyClass.WaitFree` | rtc-sdk/src/main/jni/jni_generator_helper.cpp:21-42 | a thread that has not returned can always step, its own steps bring it closer to returning, and no other thread's step sets it back |
| `LazyClass.LooksUpIffEarly` | rtc-sdk/src/main/jni/jni_generator_helper.cpp:18-25 | in every run, a call that has returned looked the class up exactly when its load came before the first publication, and a load finds the cell empty exactly while nothing has been published |
| `LazyClass.AnyNumberLookUp` | rtc-sdk/src/main/jni/jni_generator_helper.cpp:18-28 | for every n a run leads to n threads that have each looked the class up and made a reference, with nothing published: the effort may be duplicated any number of times, not only once |
| `LazyMethod.LooksUpIffEarly` | rtc-sdk/src/main/jni/jni_generator_helper.cpp:44-57 | the same for the method lookup: looked up exactly when the load came before the first store |
| `LazyMethod.AnyNumberLookUp` | rtc-sdk/src/main/jni/jni_generator_helper.cpp:44-62 | and for every n a run leads to n threads that have each looked the method up, with nothing stored |
| `LazyMethod.AgreesIffDeterministic` | rtc-sdk/src/main/jni/jni_generator_helper.cpp:48-65 | threads can never get different method ids if and only if the lookup has only one answer |
| `LazyMethod.RaceDisagrees` | rtc-sdk/src/main/jni/jni_generator_helper.cpp:48-65 | with two different answers some interleaving makes two threads return differently |
| `AudioLevels.MaxAbsValueW16` | rtc-sdk/deps/webrtc/src/common_audio/signal_processing/min_max_operations.c:37-57 | the largest absolute sample, capped at 32767 |
| `AudioLevels.AudioLevel.ComputeLevel` | rtc-sdk/deps/webrtc/src/audio/audio_level.cc:55-95 | peak, counter, level, energy and duration after a frame |
| `AudioLevels.AudioLevel.Reset` | rtc-sdk/deps/webrtc/src/audio/audio_level.cc:24-31 | everything is as new |
| `AudioLevels.AudioLevel.ResetLevelFullRange` | rtc-sdk/deps/webrtc/src/audio/audio_level.cc:38-43 | level, peak and counter are as new; energy and duration stay |
| `AudioLevels.LevelIsDecayedMaximum` | rtc-sdk/deps/webrtc/src/audio/audio_level.cc:68-82 | from any state and after any number of frames: the level stands still until a window of 11 frames is complete, and with w windows complete it is the maximum over windows j of peak j divided by 4^(w-1-j), the first taking in what the meter held; the maximum held and the counter are given exactly too |
| `AudioLevels.LevelInSilence` | rtc-sdk/deps/webrtc/src/audio/audio_level.cc:68-82 | the exact level, carried peak and counter after any number of silent frames from any state |
| `AudioLevels.SilenceOf99Frames` | rtc-sdk/deps/webrtc/src/audio/audio_level.cc:68-82 | 99 silent frames bring any setting of the fields to level 0 |
| `AudioLevels.SilenceOf98Frames` | rtc-sdk/deps/webrtc/src/audio/audio_level.cc:68-82 | from every state a meter can be in, 98 silent frames bring the level to 0 |
| `AudioLevels.SilenceOf97FramesIsNotEnough` | rtc-sdk/deps/webrtc/src/audio/audio_level.cc:68-82 | 97 do not: after one frame at full scale they leave level 1 |
| `AudioLevels.CountStaysInWindow` | rtc-sdk/deps/webrtc/src/audio/audio_level.cc:75-82 | the counter is the number of frames modulo 11 |
| `AudioLevels.EnergyWithinDuration` | rtc-sdk/deps/webrtc/src/audio/audio_level.cc:90-94 | over any frames of non-negative duration, energy and duration grow and energy stays within duration, over the reals |
| `AudioLevels.TotalsAreSums` | rtc-sdk/deps/webrtc/src/audio/audio_level.cc:86-94 | from any state, the energy grows by the sum over the frames of the squared level over 32767 times the duration, and the duration by the sum of durations |
| `AudioLevels.PeakIs` | rtc-sdk/deps/webrtc/src/audio/audio_level.cc:55-66 | a muted frame counts as silence; of any other the largest magnitude counts, cut to 32767 |
| `RefPtrs.ApplyKeeps` | rtc-sdk/deps/webrtc/src/api/scoped_refptr.h:76-157 | each construction, copy, move, assignment, swap, release, destruction and raw reference change keeps every count exact, and touches no deleted object |
| `RefPtrs.RunIsSafe` | rtc-sdk/deps/webrtc/src/api/scoped_refptr.h:76-157 | in every run an object's count is the number of handles on it plus the references handed out, it is deleted exactly when it was referenced and that number is zero, and no handle points to a deleted object |
| `RefPtrs.SelfAssignment` | rtc-sdk/deps/webrtc/src/api/scoped_refptr.h:121-133 | assigning a handle to itself changes nothing |
| `RefPtrs.SelfMove` | rtc-sdk/deps/webrtc/src/api/scoped_refptr.h:140-143 | neither does moving it to itself, although it is empty on the way |
| `RefPtrs.ReleasingFirstDeletes` | rtc-sdk/deps/webrtc/src/api/scoped_refptr.h:121-129 | releasing before adding the reference would delete the object of the last handle on self-assignment |
| `ScopedRefptrs.RefCounted.AddRef` | rtc-sdk/deps/webrtc/src/api/ref_counted_base.h:24-24 | one reference more |
| `ScopedRefptrs.RefCounted.Release` | rtc-sdk/deps/webrtc/src/api/ref_counted_base.h:25-31 | one reference less, and deleted exactly with the last |
| `ScopedRefptrs.ScopedRefptr.constructor` | rtc-sdk/deps/webrtc/src/api/scoped_refptr.h:76-92 | points where told, with one reference added; the program's objects and handles become those of the next state in `RefPtrs` |
| `ScopedRefptrs.ScopedRefptr.Move` | rtc-sdk/deps/webrtc/src/api/scoped_refptr.h:95-98 | takes over the pointer without a count change; the program's objects and handles become those of the next state in `RefPtrs` |
| `ScopedRefptrs.ScopedRefptr.Release` | rtc-sdk/deps/webrtc/src/api/scoped_refptr.h:115-119 | hands the pointer out and keeps none; the program's objects and handles become those of the next state in `RefPtrs` |
| `ScopedRefptrs.ScopedRefptr.Swap` | rtc-sdk/deps/webrtc/src/api/scoped_refptr.h:151-157 | exchanges two pointers, also of one handle with itself; the program's objects and handles become those of the next state in `RefPtrs` |
| `ScopedRefptrs.ScopedRefptr.Assign` | rtc-sdk/deps/webrtc/src/api/scoped_refptr.h:121-138 | adds the new reference before it drops the old one; the program's objects and handles become those of the next state in `RefPtrs` |
| `ScopedRefptrs.ScopedRefptr.Destroy` | rtc-sdk/deps/webrtc/src/api/scoped_refptr.h:100-103 | drops the reference; the program's objects and handles become those of the next state in `RefPtrs` |
| `ScopedRefptrs.ScopedRefptr.AssignMove` | rtc-sdk/deps/webrtc/src/api/scoped_refptr.h:140-149 | through a temporary that is swapped and destroyed; the program's objects and handles become those of the next state in `RefPtrs` |
| `AtomicRefs.RunInv` | rtc-sdk/deps/webrtc/src/api/scoped_refptr.h:76-157 | for any number of threads and any interleaving of their handle reads, atomic increments, decrements, deletions, stores, moves and swaps, where several threads may copy one handle while its owner works on another: every counter is the number of counted references, and every step is on an object that was made and, for a decrement, is counted |
| `AtomicRefs.MoveAssigns` | rtc-sdk/deps/webrtc/src/api/scoped_refptr.h:140-157 | move assignment among other threads: its three steps can be taken in turn whenever nobody is copying the two handles, and they leave the target with the pointer and the other handle empty, also when both are one |
| `AtomicRefs.NoUseAfterDelete` | rtc-sdk/deps/webrtc/src/rtc_base/ref_counter.h:25-55 | in every such run no step touches an object that has been deleted: whoever increments or decrements finds it counted and nobody about to delete it, and whoever deletes is the only one to do so |
| `AtomicRefs.DeletedExactlyOnce` | rtc-sdk/deps/webrtc/src/api/ref_counted_base.h:24-31 | in every such run an object is deleted at most once and never while referenced, and when no thread is in the middle of an operation it has been deleted exactly if no handle points to it |
| `HeaderExtensions.HeaderExtensionWithUriExists` | rtc-sdk/deps/webrtc/src/api/rtp_parameters.cc:188-197 | true exactly when some extension has the URI |
| `HeaderExtensions.FindHeaderExtensionByUri` | rtc-sdk/deps/webrtc/src/api/rtp_parameters.cc:199-238 | the first admissible extension; preferring encrypted ones it falls back on the last unencrypted one |
| `HeaderExtensions.FindIs` | rtc-sdk/deps/webrtc/src/api/rtp_parameters.cc:199-238 | which entry is found: the first unencrypted, the first encrypted, or, preferring encrypted ones, the last unencrypted if there is no encrypted one |
| `HeaderExtensions.DeduplicateHeaderExtensions` | rtc-sdk/deps/webrtc/src/api/rtp_parameters.cc:258-289 | the two loops: encrypted ones first, then what is missing |
| `HeaderExtensions.DedupHolds` | rtc-sdk/deps/webrtc/src/api/rtp_parameters.cc:258-289 | the result has no URI twice, and an entry is in it exactly when it is the chosen one of its URI: the first encrypted one if admissible, else the first unencrypted one if admissible |
| `HeaderExtensions.DedupCovers` | rtc-sdk/deps/webrtc/src/api/rtp_parameters.cc:258-289 | a URI is in the result exactly when some entry of it is admissible, and every entry of the result is an admissible entry of the input |
| `HeaderExtensions.DedupTwice` | rtc-sdk/deps/webrtc/src/api/rtp_parameters.cc:258-289 | removing duplicates twice is removing them once |
| `HeaderExtensions.FindInDedup` | rtc-sdk/deps/webrtc/src/api/rtp_parameters.cc:199-289 | a lookup in the result finds the chosen entry |
| `HeaderExtensions.FindUnchangedIff` | rtc-sdk/deps/webrtc/src/api/rtp_parameters.cc:199-289 | removing duplicates changes no lookup that discards or requires encrypted entries, and one that prefers them exactly if the URI has no encrypted entry and its first and last unencrypted ones differ |
| `HeaderExtensions.FindUnchangedOnSingles` | rtc-sdk/deps/webrtc/src/api/rtp_parameters.cc:199-289 | so none when no URI has two unencrypted entries |
| `HeaderExtensions.FindChanges` | rtc-sdk/deps/webrtc/src/api/rtp_parameters.cc:199-289 | two unencrypted entries of one URI with different ids make the lookup change |
| `SendTimes.TicksRange` | rtc-sdk/deps/webrtc/src/api/rtp_headers.h:110-111 | the unsigned subtraction and the two shifts sign-extend the 24-bit difference |
| `SendTimes.TicksExactIff` | rtc-sdk/deps/webrtc/src/api/rtp_headers.h:106-113 | the delta of two wrapped times is the true gap if and only if that fits in 24 signed bits, and otherwise differs from it by whole wraps |
| `SendTimes.TicksAddUp` | rtc-sdk/deps/webrtc/src/api/rtp_headers.h:106-113 | over any number of packets with fitting gaps the deltas add up to the elapsed ticks |
| `SendTimes.TicksAddUpIff` | rtc-sdk/deps/webrtc/src/api/rtp_headers.h:106-113 | for times that never step back by more than half a wrap they add up only then, and never to more |
| `SendTimes.MicrosError` | rtc-sdk/deps/webrtc/src/api/rtp_headers.h:112-112 | one conversion is short by at most 4095/4096 of a microsecond |
| `SendTimes.MicrosAddUp` | rtc-sdk/deps/webrtc/src/api/rtp_headers.h:106-113 | the summed conversions are off by at most that much for each packet after the first |
| `SendTimes.MicrosBoundIsTight` | rtc-sdk/deps/webrtc/src/api/rtp_headers.h:106-113 | for any number of packets there are send times that reach the bound |

## Left out

- `PeerConnection`, `Device`, the Java side and futures: plumbing over libraries that are not part of the model.
- Parsing and writing of SDP text and of fmtp strings: the model works on the fields of an m-section.
- MediaSections.MediaSection.Answer: does not model the rtp, fmtp and rtcpFb lines, codec options, ICE candidates, fingerprints and connection lines, because no operation reads them back.
- MediaSections.MediaSection.Offer: does not model the rtp, fmtp and rtcpFb lines, ICE candidates and connection lines, for the same reason.
- Handlers.Handler.Send: the codec reduction before it is in `OrtcSending` and reaches it as parameters; a null codec, which ends it early, is `BeginSend`, and the transceiver that is then taken back is the PeerConnection's; the legacy simulcast of one VP9 encoding is in `Ssrc`.
- Transports.RecvTransport.Consume: whether the parameters validate is an argument, and `RtpParameters` has the validator; the negotiation of the probator, whose exceptions the code catches, succeeds as all negotiations do here.
- Transports.SendTransport.Produce: whether the codec options validate and what the codecs reduce to is an argument; `ReduceWorksIff` says when they reduce and when to a null.
- `applyCodecParameters`, `extractRtpCapabilities`, `extractDtlsParameters`, `getCname`: translation of records field by field.
- H264 profile comparison: an arbitrary function of what the code reads of the two codecs that says whether they match and which profile to write; every result holds for all such functions.
- A floating-point profile outside 32 bits has no defined value in the code; the model counts it among those that cannot be read.
- Validators other than those of RTP capabilities and RTP parameters: they would add members of the same shape.
- JSON objects that the validators and the matching change in place are values: the validators return them changed, and `OrtcAgain` says what the matching leaves of them when it goes through, not when it throws halfway.
- Exceptions in the middle of a negotiation, except a listener that rejects or breaks in `Produce`, and listeners that call back into the transport.
- The maps of data producers and data consumers: closing those touches no m-section.
- Pause, resume, replacing a track and the maximum spatial layer: they change one field.
- `DisableMediaSection`: nothing calls it, and it does not refresh the mirrored list.
- Locks in `AudioLevel` and memory orders in the lazy lookups and the reference counter: every atomic access is one step of a sequentially consistent run. Energy is over the reals.
- Null class or method lookups end the program in the source; the model has no step for them.
- `FindHeaderExtensionByUri` returns a pointer into its list; the model returns the entry.
- `IsSupportedForAudio`, `IsSupportedForVideo`, `GetAbsoluteSendTimestamp`, `ArrayView`, event logs, `Notifier`: easy beside the rest.
- Counters of `RefCounted` are unbounded. References handed out by `release()` are in `RefPtrs`, not in `AtomicRefs`; a handle that one thread changes while another changes or reads it is a data race in the code and no step of the model.
