# hostapd and wlantest: verified models of the compact cores

The project models, in Dafny 4.11, the parts of hostapd and wlantest that compute something hard to get
right, and proves what they keep over every input, every run or every reachable state.

- **Frame protection in wlantest.** `Inject` is the injection code on a heap of BSS, station and direct
  link records: which key it picks, which counter it advances, what reaches the air. `Aead`,
  `AeadBuffers`, `Bip`, `BipS1g` and `Wep` are the encapsulations (CCMP, CCMP-256, GCMP: sections 12.5.3 and 12.5.5
  of IEEE Std 802.11-2016; BIP: section 12.5.4; WEP with RC4 in full). `Nonces` joins the counter that
  injection advances to the nonce that the cipher code builds. `InjectRun` proves that any sequence of requests on the
  heap is one function of the requests and the state it starts in, and takes both results to such runs.
- **Tracking state in wlantest.** `Tracking` (finding and creating entries), `StaKeys` (a pairwise key over
  all entries of one MLD station), `BssCache` (derived security fields), `RxFilter` (retransmissions and
  power save), `ControlAttrs` (control interface attributes).
- **The HLR/AuC gateway.** `Sqn` and `Auc` (sequence numbers, 3GPP TS 33.102 Annex C.3.2), `Triplets` (the
  rotating cursor over GSM triplets).
- **SAE-PK.** `SaePkGen` packs a hash into a password, `SaePkText` writes it as text and tests a text,
  `SaePkRead` reads it back, `SaePkVerify` rebuilds the fingerprint from it and compares it with a hash.
  `SaePkCheck` with `SaePkTable` is the check character; `SaePkBits` and `Numbers` carry the bit arithmetic.
- **Configuration and control text.** `KeyMgmt`, `DomainNames`, `CellNet` (ANQP encodings), `DataTest`
  (the IPv4 header checksum of RFC 1071 and the data test frames).

`Bits`, `Frames` and `Counters` hold what the others share: octet strings, 802.11 header fields, big-endian
counters. `dafny verify dfyconfig.toml` checks everything.

## How to read it

Code that works in place is a class with fields or a method on an array. Its `ensures` ties the new state to
a function of the old one, and lemmas state what that function keeps. AES modes, MACs, CRC-32, TKIP,
Milenage and the RSN/WPA element parsers are parameters. The only hypotheses on them are that opening undoes
sealing, that sealing adds the MIC's length, that a MAC has 16 octets and a CRC four, and that TKIP adds 20
octets to a frame.

Some properties turned out to hold under a condition only, and a lemma gives the condition:

- `Bip.CmacRoundTrip`: what `bip_protect` builds passes `check_mmie_mic`, whatever the MACs compute, exactly when
  the BSS uses BIP-CMAC-128, the IGTK has at least 16 octets and not 32, and the frame is not a Beacon or its first
  eight body octets are zero. The sender calls AES-128-CMAC for every cipher, takes the MIC length from the key,
  and does not mask the Timestamp of Beacon frames; the checker goes by the cipher and does. `Bip.BeaconRefused`
  and `Bip.DeauthRefused` are frames on which it fails. `Bip.GmacRoundTrip` is the same for `bip_gmac_protect`,
  where only the Timestamp and the length of the IGTK matter.
- `BipS1g.ByLengthExactly`: every protected S1G beacon is accepted by a checker that takes the added element off
  (`BipS1g.BeaconAccepted`). One that looks for the compatibility element by the length received, added element
  included, agrees exactly when the beacon does not end inside such an element; `BipS1g.CutOffElement` is a beacon
  that does.
- `DataTest.DataTestRx`: `hostapd_data_test_rx` compares the length field of the IP header with 1486 only. It
  reads past the frame exactly when the size and header tests pass, every payload octet received matches the
  pattern, and the length field is below 20 or claims more than was received; `DataTest.BareHeaderOverruns` is such
  a frame. No frame of `hostapd_ctrl_iface_data_test_tx` is one.
- `Sqn.Repeats`: sequence numbers repeat exactly every 2^max(48-k, k) requests for an IND of k bits.
- `KeyMgmt.RoundTrip`: a key management mask survives printing and parsing exactly when every suite in it
  has a printed name; PASN and EPPKE have none.

Where documentation and code differ, the code is followed. `parse_3gpp_cell_net` documents
`<MCC1,MNC1>[;<MCC2,MNC2>]` and also accepts a trailing separator, which leaves a zero slot, and pairs that
contain separators, such as `1;2,34`; `CellNet.ParseCellNet` does the same.

## Model

| member | source | states |
|---|---|---|
| Counters.IncByteArray | src/utils/common.c:222-231 | In place, the buffer becomes the next big-endian value, and nothing else. |
| Counters.IncrementedValue | src/utils/common.c:222-231 | The octets after an increment denote the old number plus one modulo 2^(8*len). |
| Counters.AdvancedEqual | src/utils/common.c:222-231 | m and n increments give the same octets exactly when 2^(8*len) divides n - m. |
| Aead.Aad | wlantest/ccmp.c:18-87 | The AAD is 22 octets, 6 more with a fourth address and 2 more with QoS, never over 30. |
| Aead.OpenedSealed | wlantest/ccmp.c:153-253 | For CCMP, CCMP-256 and GCMP, every frame of at least a 24-octet header and equal address overrides: the receiver rebuilds AAD and nonce from the sent octets, gets exactly the payload, and reads back the packet number. |
| Aead.SentHeader | wlantest/ccmp.c:207-253 | What anyone can read of a protected frame, for all three suites: the header with only the Protected Frame bit changed, by CCMP and not by GCMP, then Ext IV and the key ID in the cipher header. |
| Aead.HeadDecides | wlantest/ccmp.c:18-87 | AAD and nonce depend on the header and cipher header only, not on the body after them. |
| Aead.AadExact | wlantest/gcmp.c:18-78 | Two frames have equal AAD exactly when they agree on the masked header view. |
| Aead.AadNonceExact | wlantest/ccmp.c:18-87 | Equal AAD and nonce exactly when the masked header view and the packet number agree. |
| Aead.MaskedFieldsFree | wlantest/ccmp.c:18-87 | Retry, Power Management, More Data, Duration, sequence number and the QoS bits outside the TID never change AAD or nonce. |
| AeadBuffers.MaskControl | wlantest/ccmp.c:28-49 | The step by step masking of the Frame Control field gives the masked field of the specification for each suite. |
| AeadBuffers.FillAad | wlantest/ccmp.c:48-75 | The AAD buffer, filled through a moving position with overrides and in-place masks, holds exactly the AAD, and its length is right. |
| AeadBuffers.FillNonce | wlantest/ccmp.c:26-86 | The nonce buffer holds the priority octet (none for GCMP), the transmitter address or its override, and the packet number from the cipher header. |
| AeadBuffers.AadNonce | wlantest/gcmp.c:18-78 | AAD and nonce of a frame with its cipher header, for all three suites. |
| AeadBuffers.Encrypt | wlantest/ccmp.c:207-253 | The protected frame, with its length, header, Protected Frame bit and key ID told on the octets, or nothing exactly when the frame is shorter than its header or the header than 24 octets. |
| AeadBuffers.Decrypt | wlantest/gcmp.c:81-119 | The opened payload, or nothing for data too short for cipher header and MIC or a bad MIC. |
| Nonces.NonceIsTidAddrPn | wlantest/inject.c:223-244 | The nonce that the cipher code builds is the counter index that injection chose, the transmitter address and the packet number just advanced, for management, QoS, non-QoS and four-address frames. |
| Nonces.HdrLenOctets | wlantest/inject.c:223-234 | The header length on the octets: six more for a fourth address and two more for QoS, in data frames only. |
| Nonces.GroupHdrLenOctets | wlantest/inject.c:131-133 | The header length of group frames, which counts the fourth address only. |
| Nonces.CounterAfter | wlantest/inject.c:235-244 | After every run of injections each counter stands at its start advanced by the number of frames that used it. |
| Nonces.NonceRepeats | wlantest/inject.c:159-271 | Two frames of a run share a nonce exactly when they share transmitter, direction and TID and 2^48 divides the number of uses between them. |
| Nonces.NoncesDistinct | wlantest/inject.c:159-271 | No two nonces are equal in a run with at most 2^48 uses of each counter, whatever kinds of frames it mixes. |
| Nonces.GroupNonceIs | wlantest/inject.c:111-156 | The nonce of a group frame is its priority, the transmitter address and the packet number just advanced; as the header length does not count QoS Control, the priority of a QoS frame comes from the packet number. |
| Nonces.GroupNonceRepeats | wlantest/inject.c:111-156 | In a run of group frames under one key two share a nonce exactly when priority and transmitter agree and 2^48 divides their distance. |
| Inject.LongerThanFrame | wlantest/inject.c:246-258 | An encapsulated frame is longer than the original, so it is never the plaintext frame. |
| Inject.Send | wlantest/inject.c:18-55 | One frame goes out exactly when there is one and the socket accepts it; the return value says so. |
| Inject.InjectBip | wlantest/inject.c:82-108 | Without an IGTK nothing changes and the result is -1; with one, exactly its IPN becomes one more modulo 2^64, the BIP frame with that IPN is sent, and the result tells whether it went out. |
| Inject.InjectGroup | wlantest/inject.c:111-156 | Without a GTK nothing changes and the result is -1; with one, exactly its counter advances by one, the frame sealed with that value is sent and can be read with the GTK, or with 64 octets of 0x11 for an incorrect key, and the result tells whether it went out. |
| Inject.InjectPairwise | wlantest/inject.c:218-271 | Exactly the station's counter for direction and TID advances by one, the frame sealed with that value is sent and can be read with the station's PTK, or with 64 octets of 0x11 for an incorrect key, and the result tells whether it went out. |
| Inject.InjectDirect | wlantest/inject.c:235-271 | The same for the counters of a direct link, chosen by which end transmits. |
| Inject.FindTdls | wlantest/inject.c:196-207 | The first direct link of two stations in either role, null exactly when there is none. |
| Inject.FindPeers | wlantest/inject.c:180-208 | BSS, sender and direct link that a frame between stations leads to, and that they decide its route. |
| Inject.StaToStaOctets | wlantest/inject.c:180-181 | Frames between stations, told by the first two octets. |
| Inject.PeerRouteShape | wlantest/inject.c:180-208 | A route between stations is a link of exactly the two, or the PTK of the sender in the BSS that the frame names. |
| Inject.InjectStaToSta | wlantest/inject.c:180-271 | A frame between stations is refused exactly when its BSSID is a group address, BSS or one of the stations is unknown, or there is neither a direct link nor a PTK; else it goes out under the first direct link of the two, or the sender's PTK. Exactly that counter advances, and an unknown BSS gets an entry. |
| Inject.InjectProt | wlantest/inject.c:159-271 | The route is the one that frame type, stations, links and known keys determine; the frame sent is the one that the route's key and advanced counter give, the result tells whether it went out, and no other counter, key or entry changes. |
| Inject.InjectRequest | wlantest/inject.c:274-341 | The plaintext frame goes out exactly for UNPROTECTED, or for NORMAL when the frame is not protectable or no key is known. Otherwise the request takes a fully determined route, the frame sent is the one that route gives and is longer than the plaintext, the result tells whether it went out, and over all counters of all entries exactly the route's advances, by one. |
| Inject.KnownKeyRoutes | wlantest/inject.c:274-341 | A frame to or from the AP with a known key always has a route. |
| Inject.NormalPlainExactly | wlantest/inject.c:274-341 | On the octets: NORMAL sends a frame in plaintext exactly unless there is a key for it and it is a data, Deauthentication, Disassociation or non-public Action frame. |
| Inject.SentLonger | wlantest/inject.c:82-271 | No route ever sends the frame as given. |
| Inject.SentKey | wlantest/inject.c:96-258 | The key behind every frame: a CCMP frame can be read with the entry's own key, and with 64 octets of 0x11 exactly when an incorrect key was asked for; TKIP and BIP get those octets as their key. |
| Inject.SentNonceUsed | wlantest/inject.c:235-258 | On the pairwise and direct routes the frame on the air is sealed under exactly the nonce whose repeats Nonces counts, with the advanced counter in its header. |
| Inject.GroupNonceUsed | wlantest/inject.c:111-156 | The same for the group route. |
| InjectRun.InjectEvent | wlantest/inject.c:274-341 | One request, seen as the event that the state before it determines (plaintext or route and key): the air gets exactly what the event gives, the result says whether that is anything, the counters take the event's step, and the BSS list at most one empty entry. |
| InjectRun.EventGrown | wlantest/inject.c:180-208 | Entries that earlier requests added change neither route nor key of any request. |
| InjectRun.InjectAll | wlantest/inject.c:274-341 | For any sequence of requests for any entries: what each comes to is told from the state at the start; the air holds exactly what the events give, in order, every counter stands where the events take it, and every result is right. |
| InjectRun.PlainOnly | wlantest/inject.c:274-341 | In any run the frame as given goes out for exactly the events sent in plaintext; every other event gives nothing or one longer frame. |
| InjectRun.SealedAt | wlantest/inject.c:223-258 | What a pairwise or direct CCMP event puts on the air is its frame sealed under its key and the next nonce of the counters that the run has reached. |
| InjectRun.OpenedAt | wlantest/inject.c:139-258 | In any run, what goes out by PTK, TPK or GTK with CCMP can be read with that key, or with 64 octets of 0x11 for a request with an incorrect key. |
| InjectRun.LinkAfterRun | wlantest/inject.c:235-244 | After any run the counters of a station or direct link are their start advanced by the frames on that route alone. |
| InjectRun.RunNoncesDistinct | wlantest/inject.c:159-341 | In any run no two frames sealed under one station's PTK or one direct link's TPK share a nonce, up to 2^48 uses of each of its counters. |
| InjectRun.PlanAtHome | wlantest/ctrl.c:1150-1205 | With stations listed in their own BSS and asked for there, every pairwise route is anchored at the station's BSS, as that result asks. |
| InjectRun.GroupSealedAt | wlantest/inject.c:111-156 | What a group CCMP event puts on the air is its frame sealed under its key and the next group nonce of the counter that the run has reached. |
| InjectRun.GroupRunRepeats | wlantest/inject.c:111-156 | In any run two frames under one group key share a nonce exactly when priority and sender agree and 2^48 divides the number of frames under that key from one to the other. |
| InjectRun.IpnAfterRun | wlantest/inject.c:94 | After any run the packet number of an IGTK is its start plus the number of frames under it, modulo 2^64. |
| InjectRun.BipSentAt | wlantest/inject.c:82-108 | In any run a BIP frame carries, read from the sent octets, its key ID and the packet number one past those of the frames before it, modulo 2^48. |
| InjectRun.BipRunRepeats | wlantest/inject.c:82-108 | So two BIP frames under one IGTK carry equal packet numbers exactly when 2^48 divides the number of frames from one to the other. |
| Bip.LeFieldReads | wlantest/bip.c:17-67 | Key ID and packet number fields read back as written, cut to the field's width. |
| Bip.ElementSent | wlantest/bip.c:17-67 | On the octets sent: the frame, the MMIE identifier, a length octet that counts everything behind it, the key ID and the packet number. |
| Bip.AddMmie | wlantest/bip.c:17-67 | Frame, MMIE and MIC fill the output exactly, and the MIC is over masked header, addresses and body with a zero MIC. |
| Bip.FillMacInput | wlantest/bip.c:17-67 | The MIC input buffer is filled with no gap and no overrun for every frame length. |
| Bip.BipProtect | wlantest/bip.c:17-67 | An 8-octet MIC, or 16 octets for a 32-octet IGTK, computed with AES-128-CMAC in both cases; length, key ID and packet number can be read from the element. |
| Bip.GmacProtect | wlantest/bip.c:188-251 | The GMAC variant with its nonce of transmitter address and packet number. |
| Bip.CheckMmieMic | wlantest/rx_mgmt.c:3501-3577 | The checker, for every cipher and all octets: accepted exactly when cipher, key length and frame length allow a MIC and the MIC computed again, over zeros in its place and in a Beacon's Timestamp, is the one received. |
| Bip.AcceptsProtected | wlantest/rx_mgmt.c:3501-3577 | For every cipher, the checker accepts a frame with a MIC of its length exactly when the IGTK is long enough and its own MAC, over the input with the Beacon Timestamp masked, gives that MIC. |
| Bip.CmacRoundTrip | wlantest/bip.c:17-67 | What bip_protect builds is accepted, whatever the three MACs compute, exactly for BIP-CMAC-128, an IGTK of at least 16 and not 32 octets, and a frame that is no Beacon or has a zero Timestamp. |
| Bip.GmacRoundTrip | wlantest/bip.c:188-251 | What bip_gmac_protect builds is accepted, whatever the MACs compute, exactly for the GMAC ciphers, an IGTK of at least 16 octets, and such a frame. |
| Bip.BeaconRefused | wlantest/rx_mgmt.c:3533-3536 | A Beacon frame with a nonzero Timestamp under a 16-octet IGTK is not always accepted. |
| Bip.DeauthRefused | wlantest/rx_mgmt.c:3540-3545 | A Deauthentication frame under a 32-octet IGTK is not always accepted, under any cipher. |
| Bip.MacInputExact | wlantest/bip.c:17-67 | Two frames have the same MIC input exactly when they differ in Retry, Power Management, More Data, Duration and Sequence Control only. |
| BipS1g.FillInput | wlantest/bip.c:73-185 | The S1G MIC input buffer is filled exactly for every length and set of optional header fields. |
| BipS1g.MaskTsf | wlantest/bip.c:73-185 | The TSF Completion field of a leading compatibility element is zeroed in the buffer and nothing else is. |
| BipS1g.ProtectBeacon | wlantest/bip.c:73-185 | The protected S1G beacon, or nothing for another frame type or a BIGTK index that contradicts the compatibility element. |
| BipS1g.CmacProtectBeacon | wlantest/bip.c:73-185 | AES-128-CMAC, with a MIC of 16 octets for a 32-octet key and of 8 otherwise; the result passes a checker that zeroes the MIC and computes it again. |
| BipS1g.GmacProtectBeacon | wlantest/bip.c:254-375 | GMAC with a 16-octet MIC, under the nonce of source address and packet number; the result passes a checker that takes the source address from it. |
| BipS1g.BeaconAccepted | wlantest/bip.c:73-185 | Whatever the MAC computes, a protected beacon is the frame with an element appended, a checker that takes the element off, zeroes its MIC and computes it again accepts, and an MME carries the packet number used. |
| BipS1g.GmacBeaconAccepted | wlantest/bip.c:254-375 | For GMAC the checker can take the source address of its nonce from the received frame. |
| BipS1g.ByLengthExactly | wlantest/bip.c:117-164 | A checker that looks for the compatibility element by the received length accepts under every MAC exactly when the added element does not complete a truncated compatibility element with a nonzero TSF Completion. |
| BipS1g.CutOffElement | wlantest/bip.c:117-164 | An S1G beacon cut off after the third octet of its compatibility element is protected, and refused by such a checker under some MAC. |
| BipS1g.SaNonceExact | wlantest/bip.c:351-359 | Two beacons share that nonce exactly when source address and packet number agree. |
| BipS1g.BodyStarts | wlantest/bip.c:126-142 | Where the body starts for each of the three option bits, and which first octets make an S1G beacon. |
| BipS1g.InputHasIpn | wlantest/bip.c:143-149 | With BCE the packet number stands right before the body in the MIC input, so inputs for different numbers differ. |
| BipS1g.BeaconElementSent | wlantest/bip.c:98-111 | On the octets sent: the beacon, the identifier of MIC element or MME, a length octet that counts everything behind it, and for the MME key ID and packet number. |
| BipS1g.InputExact | wlantest/bip.c:73-185 | Two S1G beacons have the same MIC input exactly when they differ in Duration, Timestamp and TSF Completion only. |
| Wep.Scheduled | wlantest/wep.c:17-43 | After every round of the key schedule the table is a permutation of 0..255. |
| Wep.StateAt | wlantest/wep.c:17-43 | After every keystream octet the table is still a permutation of 0..255. |
| Wep.StreamIsRc4 | wlantest/wep.c:17-43 | Every keystream octet is that of RC4 stated in index arithmetic modulo 256 on natural numbers, key schedule included. |
| Wep.MixedMask | wlantest/wep.c:40 | Buffer and keystream octet are combined bit by bit. |
| Wep.Schedule | wlantest/wep.c:17-43 | The in-place key schedule ends in the initial keystream state of its key. |
| Wep.WepCrypt | wlantest/wep.c:17-43 | In place, octet n of the buffer is combined with octet n of a keystream that depends on key and position only. |
| Wep.CryptedTwice | wlantest/wep.c:17-43 | Applied twice, RC4 gives back every buffer. |
| Wep.Repeat | wlantest/wep.c:46-68 | The 16-octet key repeats IV and key from the start. |
| Wep.RepeatedSchedules | wlantest/wep.c:46-68 | The repeated key schedules like the original in each of the 256 rounds when its length divides 16. |
| Wep.RepeatedCrypts | wlantest/wep.c:46-68 | So it encrypts like the original. |
| Wep.TryWep | wlantest/wep.c:46-68 | Plaintext in the buffer, and success exactly when its last four octets are the ICV of the rest. |
| Wep.WepDecrypt | wlantest/wep.c:71-104 | The plaintext under the first listed key whose ICV matches; nothing exactly when the data is too short or no key matches. |
| Wep.OwnKeyFits | wlantest/wep.c:71-104 | Data encrypted under a 40-bit or 104-bit key matches its own key and decrypts to the text. |
| Tracking.Bss.StaFind | wlantest/sta.c:18-28 | The first entry with the address, null exactly when there is none. |
| Tracking.Bss.StaGet | wlantest/sta.c:79-103 | The first known entry, or a fresh one with no keys and zero counters and addresses at the head of the list; nothing for group addresses. |
| Tracking.Wlantest.BssFind | wlantest/bss.c:19-29 | The first BSS with the BSSID, null exactly when there is none. |
| Tracking.Wlantest.BssGet | wlantest/bss.c:48-70 | The first known BSS, or a fresh one with no stations, links and keys and with zero counters at the head of the list; nothing for group addresses. |
| StaKeys.CopyPtk | wlantest/sta.c:308-314 | The station holds the key with every packet number back at zero. |
| StaKeys.Matches | wlantest/sta.c:317-365 | The scan over link addresses finds the station's address exactly when it is the other entry's address or one of its link addresses. |
| StaKeys.InstallInBss | wlantest/sta.c:317-365 | In one BSS exactly the entries that share the key take it, with zero counters and the station's MLD address. |
| StaKeys.NewPtk | wlantest/sta.c:317-365 | Over all BSSes, the station and every other entry that matches by address or link address under an AP with the same MLD address hold the key with zero counters and the MLD address; every other entry, and every link address and cipher mark, is unchanged. |
| BssCache.Record.Update | wlantest/bss.c:148-310 | The new entry for every frame, computing the derived fields again only on a change; from a consistent entry it is what always computing them again would give. |
| BssCache.UpdatedIsRecomputed | wlantest/bss.c:148-310 | Skipping the computation when neither elements nor capabilities changed loses nothing. |
| BssCache.RunConsistent | wlantest/bss.c:148-310 | After every run of frames and capability changes the derived fields are the one function of the stored elements and of the capability they were computed with. |
| BssCache.AcceptedIsCurrent | wlantest/bss.c:148-310 | After an accepted frame they are that function of the current capability. |
| BssCache.RunMeans | wlantest/bss.c:264-310 | After every run, bit by bit: proto, pairwise, group and key management bits are exactly those that a stored element that parses has in that field, or group WEP40 exactly with no element and Privacy; capabilities are those of the RSN element if it parses, else of the WPA element; group management ciphers are none without RSN and MFPC. |
| BssCache.AcceptedMeans | wlantest/bss.c:148-310 | After an accepted frame the same holds of the elements in that frame itself and the current capabilities; only a short beacon without an RSN element leaves the stored one. |
| BssCache.RefusedIsForgotten | wlantest/bss.c:148-310 | A frame with a bad SSID leaves nothing behind that the next frame could see but its error mark. |
| BssCache.IdentityKept | wlantest/bss.c:148-310 | An MLD address or link ID, once set, is never changed by any run. |
| RxFilter.Station.Duplicate | wlantest/process.c:142-178 | A frame is dropped exactly when Retry is set, its sequence control equals its slot's and duplicates are not allowed; a kept frame updates its own slot only. |
| RxFilter.Station.UpdatePs | wlantest/process.c:90-139 | Power Management and PS-Poll state after a frame in either direction. |
| RxFilter.Station.RxFrame | wlantest/process.c:200-255 | The state after a frame, and whether it was passed on. |
| RxFilter.GetEnds | wlantest/process.c:20-80 | BSSID, station and direction of a frame from its octets, or none, exactly as the specification of the filter's frames has it. |
| RxFilter.ValidOctets | wlantest/process.c:200-220 | The frames of the runs are exactly those with such ends and protocol version 0. |
| RxFilter.StateReflectsHistory | wlantest/process.c:90-178 | After every run the slots hold the last sequence control passed on, or 0xffff, and the flags describe the last frames passed on. |
| RxFilter.DroppedExactly | wlantest/process.c:142-178 | A frame is dropped after a run exactly when it is a Retry with the sequence control of the last frame passed on in its slot (or the initial fill) and that last frame did not fail to decrypt. |
| RxFilter.SlotsExactly | wlantest/process.c:142-178 | On the octets: two frames share a slot exactly when direction and TID agree, and frames without a TID share one of their own. |
| RxFilter.DroppedOnOctets | wlantest/process.c:142-178 | On the octets: a frame is dropped after a run exactly when it is no PS-Poll, has Retry set, repeats the sequence control octets of the last frame passed on with its direction and TID, and the last frame passed on did not fail to decrypt. |
| RxFilter.FirstOfItsTid | wlantest/process.c:142-178 | A frame whose direction and TID no frame passed on has is passed on itself, retransmission or not, unless its sequence control is all ones. |
| RxFilter.CopiesVanish | wlantest/process.c:142-178 | From any state that guards a frame, Retry copies of it mixed with frames of other slots change neither state nor what is passed on. |
| RxFilter.RetransmissionsVanish | wlantest/process.c:200-255 | In any run, any number of Retry copies after an accepted frame, interleaved with frames of other directions or TIDs, leave the frames passed on and the final state as they would be without the copies, while that frame and those in between decrypt. |
| ControlAttrs.AttrGet | wlantest/ctrl.c:21-46 | On arbitrary octets: the range of the value of the first attribute with the identifier, inside the buffer; null exactly when no attribute that can be read has it. |
| ControlAttrs.ParsedEncoded | wlantest/ctrl.c:72-101 | Reading an attribute list gives back the attributes that were added, whatever unreadable octets follow. |
| ControlAttrs.EncodedParsed | wlantest/ctrl.c:21-46 | Every octet string is the attributes read from it followed by a rest in which no attribute can be read. |
| ControlAttrs.AttrAdd | wlantest/ctrl.c:72-86 | The attribute is appended exactly when it fits before the end, and nothing is written after it; otherwise nothing is written at all. |
| ControlAttrs.AttrAddBe32 | wlantest/ctrl.c:89-101 | The same for a number in four octets. |
| ControlAttrs.AttrGetMacaddr | wlantest/ctrl.c:49-58 | The first value with the identifier when it has six octets, else nothing. |
| ControlAttrs.AttrGetInt | wlantest/ctrl.c:61-69 | The first value with the identifier as a signed number, and -1 when it is missing or not four octets. |
| ControlAttrs.IntRoundTrip | wlantest/ctrl.c:61-101 | A number added anywhere in a list is read back, and can be told from a missing one exactly when it is not 2^32 - 1. |
| ControlAttrs.ListBss | wlantest/ctrl.c:216-238 | The reply holds the first 164 addresses at most, fits its buffer, and its length field counts exactly them. |
| ControlAttrs.ListReadable | wlantest/ctrl.c:216-238 | Read back, the reply is one attribute with those addresses. |
| Sqn.IncSqn | hostapd/hlr_auc_gw.c:713-732 | In place, six big-endian octets become the number with SEQ and IND each one further, cut to 48 bits. |
| Sqn.IncrementedParts | hostapd/hlr_auc_gw.c:713-732 | One step adds one to SEQ modulo 2^(48-k) and to IND modulo 2^k, with no carry between them. |
| Sqn.AfterParts | hostapd/hlr_auc_gw.c:713-732 | So n steps add n to each. |
| Sqn.Repeats | hostapd/hlr_auc_gw.c:713-732 | Two counts of steps give the same number exactly when 2^max(48-k, k) divides their difference. |
| Auc.Gateway.GetMilenage | hostapd/hlr_auc_gw.c:571-587 | The first entry with the IMSI, or none. |
| Auc.Gateway.AkaReq | hostapd/hlr_auc_gw.c:735-809 | The first entry's SQN is advanced and issued; an unknown IMSI or a failing random source changes nothing. |
| Auc.Gateway.Auts | hostapd/hlr_auc_gw.c:812-864 | A verified AUTS sets the SQN of that IMSI; a failing check or an unknown IMSI changes nothing. |
| Auc.RunSqn | hostapd/hlr_auc_gw.c:735-864 | After every run of commands for any IMSIs an entry holds its last resynchronized value advanced by its own requests since then; shadowed entries never change. |
| Auc.IssuedRepeats | hostapd/hlr_auc_gw.c:735-864 | Two SQNs issued to an IMSI from the same resynchronization are equal exactly when the period divides the requests between them. |
| Triplets.Cursor.GetTriplet | hostapd/hlr_auc_gw.c:363-385 | The first match in the list rotated to start at the cursor, null exactly when nothing matches; the cursor moves behind the match. |
| Triplets.Cursor.SimReqAuth | hostapd/hlr_auc_gw.c:634-649 | All requested challenges or none; the branch for a triplet of another IMSI is never taken. |
| Triplets.PickedTurn | hostapd/hlr_auc_gw.c:363-385 | The match handed out is the one whose turn it is, counting the matches before the cursor, and the turn moves on by one. |
| Triplets.CyclicOrder | hostapd/hlr_auc_gw.c:363-385 | While one IMSI is asked for, its triplets come back in cyclic list order from any cursor. |
| Triplets.FairUse | hostapd/hlr_auc_gw.c:363-385 | After any number of such requests the use counts of two of its triplets differ by at most one. |
| SaePkBits.ShiftLeft19 | src/common/sae_pk.c:325-340 | The part of the buffer given is shifted in place and nothing else is. |
| SaePkBits.ShiftLeft19Bits | src/common/sae_pk.c:325-340 | The shift drops the first 19 bits and brings zeros in from the right, for every length. |
| SaePkBits.ShiftLeft1Bits | src/common/sae_pk.c:343-356 | The same for one bit. |
| SaePkBits.EvenGroup | hostapd/sae_pk_gen.c:160-162 | The three octets of an even round hold the mark, the first 19 bits, and four zero bits. |
| SaePkBits.OddGroup | hostapd/sae_pk_gen.c:155-158 | An odd round completes the half-filled octet and two more with the mark and the first 19 bits. |
| SaePkGen.PackPasswordBase | hostapd/sae_pk_gen.c:145-164 | For every hash length and Sec, output bit 20j is Sec_1b, the 19 bits after it are the next 19 hash bits after the 8*Sec leading ones, the rest of the 64-octet buffer is zero, and every write stays in it. |
| SaePkVerify.PrintedUsesHashOnly | hostapd/sae_pk_gen.c:170-182 | The lengths printed are exactly those whose password uses real hash bits only, and they lie inside the groups packed. |
| SaePkVerify.UnmarkedStretch | src/common/sae_pk.c:394-414 | Removing the marks undoes inserting them. |
| SaePkVerify.Fingerprint | src/common/sae_pk.c:394-419 | The 32-bit shift register loop gives Sec zero octets and then every wanted bit of the password without its marks, zero padded to whole octets. |
| SaePkVerify.ValidFingerprint | src/common/sae_pk.c:709-774 | The comparison, with its partial last octet, accepts exactly when the hash starts with the fingerprint's bits. |
| SaePkVerify.FingerprintOfPassword | hostapd/sae_pk_gen.c:145-182 | The bits read from any printed password are the hash bits after the 8*Sec leading ones. |
| SaePkVerify.SecRead | src/common/sae_pk.c:382 | The first bit of a printed password gives the Sec that the generator used. |
| SaePkCheck.TableIsProduct | src/common/sae_pk.c:26-91 | Each of the 1024 table entries is the product of its row and column in the dihedral group of order 32. |
| SaePkCheck.DCheckChar | src/common/sae_pk.c:115-139 | The backward loop over that table gives the inverse of the product of the permuted digits, all other characters skipped. |
| SaePkCheck.SingleErrorDetected | src/common/sae_pk.c:115-139 | A change of any one digit changes the product. |
| SaePkCheck.SwapDetected | src/common/sae_pk.c:94-139 | So does swapping two different neighbours, as no two digits give the same product with one another permuted. |
| SaePkCheck.CheckDigitCloses | src/common/sae_pk.c:107-139 | A digit is the check digit exactly when it makes the product over all digits neutral. |
| SaePkText.Encode | src/common/sae_pk.c:196-247 | Nothing for no bits; else the digits of the bits in groups of four with dashes, and the check character, within the buffer for every number of bits. |
| SaePkText.BitsOfQuints | src/common/sae_pk.c:232-242 | The digits of a bit string carry exactly its bits. |
| SaePkText.DashedShape | src/common/sae_pk.c:196-210 | Place p holds a dash exactly when p mod 5 is 4, else the digit number p - p/5. |
| SaePkText.ValidPassword | src/common/sae_pk.c:142-193 | Accepted exactly when length, dashes, alphabet, check character and the marks of all groups are right. |
| SaePkText.EncodedValid | src/common/sae_pk.c:142-247 | The text of 20j-5 bits whose groups start with equal bits is a valid password, for every j from 3. |
| SaePkText.SingleErrorRefused | src/common/sae_pk.c:142-193 | A valid password with any one character changed into any other is not valid. |
| SaePkText.SwapRefused | src/common/sae_pk.c:142-193 | A valid password with two different neighbouring characters swapped, the check character and those on both sides of a dash included, is not valid. |
| SaePkRead.Decode | src/common/sae_pk.c:250-314 | On every text, padding characters included: nothing exactly when no character counts; else the bits of its digits up to the first block with padding, less the octets that are padding only. Every write is inside the buffer. |
| SaePkRead.PlainText | src/common/sae_pk.c:250-314 | A text without padding characters decodes to the bits of all its digits and up to seven zeros. |
| SaePkRead.RoundTrip | src/common/sae_pk.c:213-314 | Decoding what was encoded gives back the bits, for every octet string and number of bits. |
| SaePkRead.ValidDecodes | src/common/sae_pk.c:374-380 | A valid password always decodes, to at least eight octets, so the shifts and the 19-bit reads that follow stay inside. |
| SaePkRead.VerifyText | src/common/sae_pk.c:359-424 | For every text and hash: accepted exactly when the text is valid, its fingerprint fits, and the hash starts with Sec zero octets followed by the text's bits without the marks. |
| SaePkRead.PrintedPasswordVerifies | src/common/sae_pk.c:359-424 | The text of every password that the generator prints for a hash is accepted for that hash. |
| SaePkVerify.VerifyPassword | src/common/sae_pk.c:382-424 | From the octets and the text length of any password: accepted exactly when the fingerprint fits its buffer and the hash, and the hash starts with the Sec zero octets that the first bit tells and goes on with the bits without the marks. |
| SaePkVerify.GeneratedPasswordVerifies | hostapd/sae_pk_gen.c:145-182 | Any octets that start with the bits of a password the generator prints for a hash are accepted for that hash. |
| KeyMgmt.WordsOfLaid | hostapd/config_file.c:646-655 | However words are laid out with blanks, splitting finds exactly them. |
| KeyMgmt.ParseKeyMgmt | hostapd/config_file.c:636-743 | Accepted exactly when every word names a suite; the mask is the set of suites named. |
| KeyMgmt.SameNames | hostapd/config_file.c:636-743 | Order, repeats and blanks do not matter. |
| KeyMgmt.GetKeyMgmt | hostapd/ctrl_iface.c:943-1103 | All names of the mask separated by spaces when they fit, else the whole names before the first that does not. |
| KeyMgmt.PrintThenParse | hostapd/ctrl_iface.c:5800-5853 | No mask needs more than 225 of the 256 octets of DUP_NETWORK, and parsing the text gives the printable part of the mask. |
| KeyMgmt.RoundTrip | hostapd/ctrl_iface.c:5800-5853 | A mask survives exactly when every suite in it is printable. |
| KeyMgmt.AcceptedSurvives | hostapd/config_file.c:636-743 | Every accepted list without PASN and EPPKE comes back as the same mask. |
| DomainNames.CountNames | hostapd/config_file.c:4335-4383 | The first pass counts the names between commas. |
| DomainNames.EncodeDomainNames | hostapd/config_file.c:4335-4383 | Accepted exactly when every name has at most 255 octets; the encoding has one octet more than the text and decodes to the names between commas. |
| DomainNames.DecodedEncoded | hostapd/config_file.c:4335-4383 | Decoding gives back every list of names that can be encoded. |
| CellNet.ParseCellNet | hostapd/config_file.c:1566-1638 | For every string: accepted exactly when all characters are allowed, at most 42 slots are counted and every pair has three and two or three characters; the whole buffer, zero slots included, with length octets that count what follows and the number of slots. |
| CellNet.FillSlots | hostapd/config_file.c:1597-1623 | The second pass writes one slot per pair and never past the slots counted. |
| CellNet.DigitValue | hostapd/config_file.c:1615-1622 | What any allowed character, separators included, contributes to a slot: its difference to '0' cut to an octet. |
| CellNet.PairsFit | hostapd/config_file.c:1575-1623 | No string has more pairs than slots counted. |
| CellNet.SlotBack | hostapd/config_file.c:1615-1622 | A slot decodes to its MCC and MNC, two-digit and three-digit MNCs told apart. |
| CellNet.CellNetRoundTrip | hostapd/config_file.c:1566-1638 | Every list of 1 to 42 pairs of digits, written as text, is accepted and its slots decode to the same list. |
| DataTest.Folded | hostapd/ctrl_iface.c:1999-2000 | Folding ends, keeps the sum modulo 65535, and gives zero for zero only. |
| DataTest.HdrChecksum | hostapd/ctrl_iface.c:1990-2003 | The 32-bit loop computes the complement of the folded sum, in either byte order. |
| DataTest.NoWrap | hostapd/ctrl_iface.c:1990-2003 | Up to 65537 words the 32-bit sum does not wrap. |
| DataTest.VerifiesExactly | hostapd/ctrl_iface.c:1990-2003 | The checksum over a buffer is zero exactly when its word sum is a nonzero multiple of 65535. |
| DataTest.ChecksumVerifies | hostapd/ctrl_iface.c:1990-2003 | Storing the checksum in a zero word makes the whole sum to 0xffff. |
| DataTest.OrderFree | hostapd/ctrl_iface.c:1990-2003 | The octets stored for a checksum do not depend on the byte order of the host. |
| DataTest.DataTestTx | hostapd/ctrl_iface.c:2097-2168 | Refused exactly for a TOS or length out of range; otherwise the whole Ethernet frame. |
| DataTest.TestFrameOctets | hostapd/ctrl_iface.c:2126-2160 | Every octet of the frame but the checksum: addresses, EtherType, version, the TOS asked for, total length, TTL, protocol, IP addresses and payload pattern. |
| DataTest.DataTestRx | hostapd/ctrl_iface.c:2009-2051 | For every frame: a report, nothing, or a read past the frame, from the size, header and payload tests in the source's unsigned arithmetic. A read past the frame happens exactly when the tests pass, all payload received matches, and the length field is below 20 or claims more than was received; a report only when the claimed length was received. |
| DataTest.BareHeaderOverruns | hostapd/ctrl_iface.c:2037-2044 | A bare header that claims one octet of payload is such a frame. |
| DataTest.TxReceived | hostapd/ctrl_iface.c:2097-2168 | Every frame that can be sent carries a valid header checksum and is reported with the addresses and length it was sent with. |
| DataTest.SameOnAnyHost | hostapd/ctrl_iface.c:2097-2168 | Hosts of either byte order send the same octets. |

## Left out

- DataTest.DataTestRx: what lies behind a frame in memory, and so what happens after a read past it, is not modelled.
- DataTest.DataTestTx: starts after the command has been split into addresses, TOS and length; the socket is left out.
- Sqn.IncSqn: IND lengths 31 and 32, for which the mask shift in the source is not defined.
- Inject.InjectRequest: takes frames of at least 24 octets, as the control interface does; on the pairwise and direct routes a QoS data frame holds its QoS Control octet, which the code reads without a length check.
- InjectRun.InjectAll: keys and station lists do not change in the course of a run.
- Inject.InjectGroup: follows the source's header length for group frames, which does not count QoS Control.
- Nonces.NoncesDistinct: one entry and one key installation; several entries that share one key have counters of their own. Its runs, and those of InjectRun, contain injections only: received frames overwrite the packet number counters (wlantest/rx_data.c:724, wlantest/rx_mgmt.c:3842).
- Triplets.FairUse: requests for one IMSI at a time; requests for other IMSIs in between move the shared cursor.
- SaePkText.Encode: the refusal of SIZE_MAX / 8 and more octets is left out.
- BssCache.Record.Update: the beacon and probe response flags, mobility domain, mesh identifiers and PMK derivation in bss_update are not modelled.
- ControlAttrs.AttrGet: offsets do not wrap, as with 64-bit addresses.
- Ciphers, MACs, CRC-32, hashes, TKIP and Milenage are parameters; PV1 CCMP is not modelled.
- Packet number checks on received data frames and replay detection.
- Termination of the SAE-PK modifier search, which depends on the hash; the generated hash is only known to start with Sec zero octets.
- update_milenage_file, the SQLite store, optional RES lines and the command text of the gateway.
- The other options of hostapd_config_fill and the other control interface commands, which are single branches.
- Sockets, the event loop, drivers, capture files and command line tools.
- Allocation is taken to succeed, and freeing is not modelled.
