# Onion-routing workshop: a Dafny model

This project models the core of a small onion-routing overlay written in TypeScript. It has three parts:

- **The directory** (`src/registry/registry.ts`). It keeps an in-memory, append-only array of `{nodeId, pubKey}` records.
  - `/registerNode` validates the body, refuses an id that is already present, and otherwise pushes the record.
  - `/getNodeRegistry` returns the array in registration order.
- **The simple onion router** (`src/onionRouters/simpleOnionRouter.ts`). Its module-level state is shared by every router started in one process:
  - its own copy of the node table. Startup pushes `{nodeId, pubKey}` into it without a duplicate check. `/registerNode` checks types and duplicates before pushing.
  - three `last*` variables. No code ever assigns them, so their getters always answer null.
- **The user** (`src/users/user.ts`). `/message` stores the delivered text. `/getLastCircuit` projects the module-level `lastCircuit` onto node ids. `/sendMessage` does four things:
  - draws random registry entries until it holds three with distinct ids;
  - wraps the message once per node: a 10-digit zero-padded destination, symmetric encryption of `destination + payload`, and the RSA-sealed exported key in front;
  - reverses the circuit in place;
  - posts the onion to the first node of the reversed circuit.

## Module layout

| file | module | what it holds |
|---|---|---|
| `wrappers.dfy` | `Wrappers` | `Option` for JavaScript's `T \| null` |
| `decimal.dfy` | `Decimal` | `String(n)`, `padStart(10, "0")` and the value a digit string denotes |
| `node_table.dfy` | `NodeTable` | JSON request values, table entries, the shared add-if-absent step |
| `registry.dfy` | `RegistryService` | the directory's validation, its `Registry` class, and replays of many calls |
| `onion_router.dfy` | `OnionRouterService` | the router's validation, its module globals (`RelayGlobals`), and the `SimpleOnionRouter` class |
| `onion.dfy` | `Layering` | one layer, and the onion as a function of the circuit and the keys |
| `circuit.dfy` | `Circuit` | circuit selection, in-place reversal, and the onion seen hop by hop along the route |
| `user.dfy` | `UserService` | the wrapping loop, the `UserGlobals` and `User` classes, and `/sendMessage` |

How the model stands in for things outside the code:

- **Crypto.** The crypto functions (`exportSymKey`, `symEncrypt`, `rsaEncrypt`) are the fields of a `Crypto` value. They are assumed total and deterministic: every call returns, and its result depends only on its arguments. Nothing else is assumed about what they compute, so every statement holds for any such functions.
- **Randomness.** The keys from `createRandomSymmetricKey` are a caller-supplied sequence, one per layer. `Math.random` is a caller-supplied sequence of drawn indices.
- **Network.** The registry snapshot is an input. The post to the entry node is returned as a `Post`.
- **Configuration.** The ports from `../config` are a `Ports` value.
- **Request bodies.** `/registerNode` bodies are untyped JSON, so both handlers take `Json` values. This lets the two validations differ as they do in the code. JavaScript's `===` on such values is equality of `Json`: numbers are integers, JSON has no NaN, and objects compare by reference.

## Model

| member | source | states |
|---|---|---|
| `Decimal.NumberToString` | src/users/user.ts:83 | `String(n)` on an integer: a minus sign for a negative `n`, then the digits of its magnitude without leading zeros |
| `Decimal.PadStart` | src/users/user.ts:83 | `padStart(width, fill)` with a one-character fill: fill characters are put in front up to `width`; the string is never truncated, so the result is as long as the larger of the string and `width` |
| `Decimal.Address` | src/users/user.ts:83 | the destination field for a port, `String(port).padStart(10, "0")`, as written at lines 83 and 94 |
| `Decimal.DigitsValue` | src/users/user.ts:83 | reading the digits of `String(n)` back as a decimal number gives `n` |
| `Decimal.DigitsLength` | src/users/user.ts:83 | `String(n)` has at most `k` digits exactly when `n < 10^k` |
| `Decimal.LeadingZerosValue` | src/users/user.ts:83 | zero padding in front of a digit string keeps it all digits and keeps its value |
| `Decimal.PadStartShape` | src/users/user.ts:83 | `padStart` output ends with the original string, and every character before it is the fill |
| `Decimal.AddressShape` | src/users/user.ts:83 | for a port ≥ 0: the destination is all digits, denotes the port, and is at least 10 long; it is exactly 10 long iff the port is below 10^10 |
| `Decimal.FixedWidthAddress` | src/users/user.ts:94 | a port in [0, 10^10) gives a destination of exactly 10 decimal digits whose value is the port |
| `Decimal.NegativeAddress` | src/users/user.ts:83 | a negative port sum gives a destination that is not a decimal number (the minus sign survives padding) |
| `Layering.UserDestination` | src/users/user.ts:83 | the destination field naming user `destinationUserId`: `Address(BASE_USER_PORT + destinationUserId)` |
| `Layering.NodeDestination` | src/users/user.ts:94 | the destination field naming a relay: `Address(BASE_ONION_ROUTER_PORT + node.nodeId)` |
| `Layering.Layer` | src/users/user.ts:87-100 | one iteration of the wrapping loop for a node and its key: the RSA-sealed exported key, then the symmetric encryption of the current destination followed by the payload |
| `Layering.InnerDestination` | src/users/user.ts:83-94 | the value of `destination` when a node's layer is built: the user's field before the first node, and the previously wrapped node's field afterwards |
| `Layering.Onion` | src/users/user.ts:82-101 | the value of `encryptedMessage` after the loop over the nodes in order: the message itself for no nodes, the last node's layer around the onion of the others otherwise |
| `Layering.OnionExtend` | src/users/user.ts:85-100 | one more loop iteration wraps the onion of the first `i` nodes in node `i`'s layer, with the destination of the node before it, and makes node `i`'s field the next destination |
| `Layering.ThreeHopOnion` | src/users/user.ts:82-101 | with picks c0,c1,c2 and keys k0,k1,k2 the onion is exactly `rsa(exp(k2),c2.pub) + sym(k2, dest(c1) + (rsa(exp(k1),c1.pub) + sym(k1, dest(c0) + (rsa(exp(k0),c0.pub) + sym(k0, userDest + message)))))` |
| `Layering.DestinationsFixedWidth` | src/users/user.ts:83-94 | when all ports fit in 10 digits, the destination inside every layer is 10 decimal digits; the innermost denotes the user's port and the one over node i−1 denotes that node's port |
| `Circuit.Draw` | src/users/user.ts:74-77 | one draw: the drawn node is pushed when the circuit is not yet full and holds no node with its id, and is skipped otherwise |
| `Circuit.Select` | src/users/user.ts:72-78 | the circuit held after any draws has at most 3 nodes, pairwise-distinct ids, and only entries of the snapshot |
| `Circuit.SelectSaturates` | src/users/user.ts:73 | once 3 nodes are held, further draws change nothing, so the loop's stopping point does not matter |
| `Circuit.DistinctDrawsKept` | src/users/user.ts:72-78 | up to three draws of nodes with pairwise-distinct ids are all kept, in the order drawn |
| `Circuit.ThreeDistinctDrawsSuffice` | src/users/user.ts:73-78 | three draws of nodes with distinct ids complete the circuit in draw order, so inputs meeting `PickCircuit`'s requirement exist whenever the snapshot has 3 distinct ids |
| `Circuit.PickCircuit` | src/users/user.ts:72-78 | the selection loop returns exactly 3 nodes, with pairwise-distinct ids, each from the snapshot, equal to `Select` of the draws |
| `Circuit.Reversed` | src/users/user.ts:104 | the reverse of a sequence: the same length, and element `k` is the old element `n - 1 - k` |
| `Circuit.ReverseInPlace` | src/users/user.ts:104 | `circuit.reverse()` leaves the array holding the reverse of its old contents |
| `Circuit.OnionAlongRoute` | src/users/user.ts:85-109 | seen along the reversed circuit, hop j receives a layer sealed with hop j's key for hop j; its destination names hop j+1, or the user after the last hop; it encloses the onion hop j+1 receives, and after the last hop the plain message |
| `UserService.NodeIds` | src/users/user.ts:56 | the `nodeId` projection keeps length and order |
| `UserService.EncryptLayers` | src/users/user.ts:82-101 | the wrapping loop computes `Onion` of the circuit in order, layer i using `keys[i]`, one layer per node |
| `UserService.UserGlobals.constructor` | src/users/user.ts:21 | `lastCircuit` starts out null |
| `UserService.User.constructor` | src/users/user.ts:23-29 | a new user has no last received and no last sent message |
| `UserService.User.ReceiveMessage` | src/users/user.ts:47-51 | `/message` sets the last received message to the body's message and leaves the last sent one alone |
| `UserService.User.GetLastCircuit` | src/users/user.ts:54-61 | 404 exactly when `lastCircuit` is null; otherwise the ids of `lastCircuit`, in order |
| `UserService.User.SendMessage` | src/users/user.ts:64-117 | afterwards `lastCircuit` is a new array holding the reversed picks, so its first node is the last one picked; the post goes to that node's port and carries the onion of the message over the picks; `lastSentMessage` is the plaintext; the inbox is unchanged |
| `NodeTable.HasId` | src/registry/registry.ts:42 | `registeredNodes.some((node) => node.nodeId === nodeId)`; the router's test at src/onionRouters/simpleOnionRouter.ts:60 is the same |
| `NodeTable.AddIfAbsent` | src/registry/registry.ts:42-47 | a known id is refused with the table unchanged; otherwise the entry is appended at the end; the id is present afterwards; distinct ids stay distinct |
| `NodeTable.DistinctCountsOnce` | src/registry/registry.ts:42-47 | in a table with distinct ids, a present id occurs exactly once and an absent one never |
| `RegistryService.RegistryAccepts` | src/registry/registry.ts:37 | the directory's validation: `nodeId` and `pubKey` are both present and `pubKey` is not the empty string |
| `RegistryService.Register` | src/registry/registry.ts:33-49 | refused as invalid iff `nodeId` or `pubKey` is undefined or `pubKey` is empty; refused as a duplicate iff valid and the id is present; a rejection leaves the table unchanged; an acceptance appends exactly one entry after all prior ones; distinctness of ids is preserved |
| `RegistryService.ReplayAppendOnly` | src/registry/registry.ts:33-54 | over any series of calls, the table only grows at the end (earlier entries are never changed or removed) and keeps its ids distinct |
| `RegistryService.ReplayOnlyAccepted` | src/registry/registry.ts:37-48 | every entry a series of calls adds is `{nodeId, pubKey}` of one of those requests that passed validation |
| `RegistryService.ReplayListsAccepted` | src/registry/registry.ts:37-48 | after a series of calls, the id of every request that passed validation is listed, whether its own call or an earlier one stored it |
| `RegistryService.SecondRegistrationRefused` | src/registry/registry.ts:42-44 | after a successful registration, registering the same id again changes nothing, is reported as a duplicate when valid, and the id is listed exactly once |
| `RegistryService.Registry.constructor` | src/registry/registry.ts:30 | the directory starts empty |
| `RegistryService.Registry.RegisterNode` | src/registry/registry.ts:33-49 | the handler's outcome and new table are those of `Register`, and it keeps the uniqueness invariant |
| `RegistryService.Registry.GetNodeRegistry` | src/registry/registry.ts:52-54 | the listing is the stored table, whose ids are distinct |
| `RegistryService.RegisterAll` | src/registry/registry.ts:33-54 | a fresh directory given a series of requests lists exactly `Replay` of them, with distinct ids |
| `OnionRouterService.RelayAccepts` | src/onionRouters/simpleOnionRouter.ts:55 | the router's validation: `nodeId` is a number and `pubKey` is a string |
| `OnionRouterService.RelayRegister` | src/onionRouters/simpleOnionRouter.ts:51-67 | refused as invalid iff `nodeId` is not a number or `pubKey` not a string; refused as a duplicate iff valid and the id is present; a rejection leaves the table unchanged; an acceptance appends exactly one entry; distinctness of ids is preserved |
| `OnionRouterService.ValidationDiffers` | src/onionRouters/simpleOnionRouter.ts:55-57 | the router accepts an empty key that the directory refuses; the directory accepts a string id and a null key, which the router refuses; apart from the empty key, whatever the router accepts the directory accepts too |
| `OnionRouterService.RelayGlobals.constructor` | src/onionRouters/simpleOnionRouter.ts:7-10 | the `last*` variables start null and the module table starts empty |
| `OnionRouterService.SimpleOnionRouter.constructor` | src/onionRouters/simpleOnionRouter.ts:12-28 | startup appends `{nodeId, pubKey}` to the shared table unconditionally and leaves the `last*` variables null |
| `OnionRouterService.SimpleOnionRouter.RegisterNode` | src/onionRouters/simpleOnionRouter.ts:51-67 | the handler's outcome and new table are those of `RelayRegister`; the `last*` variables stay null |
| `OnionRouterService.SimpleOnionRouter.GetLastReceivedEncryptedMessage` | src/onionRouters/simpleOnionRouter.ts:36-38 | always null, since nothing assigns the variable |
| `OnionRouterService.SimpleOnionRouter.GetLastReceivedDecryptedMessage` | src/onionRouters/simpleOnionRouter.ts:41-43 | always null, since nothing assigns the variable |
| `OnionRouterService.SimpleOnionRouter.GetLastMessageDestination` | src/onionRouters/simpleOnionRouter.ts:46-48 | always null, since nothing assigns the variable |
| `OnionRouterService.StartupBreaksUniqueness` | src/onionRouters/simpleOnionRouter.ts:28 | pushing at startup an id already in the table makes the table's ids no longer distinct |
| `OnionRouterService.StartTwoRoutersWithSameId` | src/onionRouters/simpleOnionRouter.ts:10-28 | two routers started with the same id in one process leave that id listed twice (such routers would also collide on their port at line 81) |
| `OnionRouterService.RegisterThenStartSameId` | src/onionRouters/simpleOnionRouter.ts:28-65 | without any port collision: router `m` accepts `/registerNode` of id `m + 1`, then the router started with id `m + 1` pushes that id again, so it is listed twice |

Both `/getNodeRegistry` handlers return the stored array as it is, so the router's `GetNodeRegistry` and the `GetPrivateKey`, `GetLastReceivedMessage` and `GetLastSentMessage` getters are plain field reads and carry no contract.

## Where the code and the intended protocol disagree

The intended protocol has relays that decrypt and forward, an error for too few nodes, and a checked registration of each relay with the directory. The model follows the code in each case.

- **Too few nodes.** The intended protocol reports an `InsufficientNodes` error when the snapshot has fewer than 3 nodes. The code has no such check:
  - with fewer than 3 distinct ids its loop never ends;
  - with an empty snapshot it fails reading `nodeId` of `undefined`.

  The model requires the draws to complete a circuit (`|Select(nodes, picks)| == 3`). It invents no error path.
- **Where the onion goes.** The intended protocol sends the onion to the first node in circuit order. The code wraps in pick order, reverses the circuit and sends to the last node picked. That node holds the outermost layer, so the code is consistent with itself. `SendMessage` and `OnionAlongRoute` state what the code does.
- **Startup registration.** The intended protocol registers each relay with the directory and treats an id collision as fatal. The router instead pushes into its own module-level list, with no check of any kind (`StartupBreaksUniqueness`, `StartTwoRoutersWithSameId`, `RegisterThenStartSameId`).
- **Relay forwarding.** The intended protocol has each relay decrypt one layer and forward the rest. The router file has no `/message` route and no decryption, and its `last*` variables are never written. The onion posted by `/sendMessage` therefore reaches no handler in this file.

## Left out

- HTTP and Express plumbing is not modelled: routing, JSON body parsing, status codes, `/status`, `app.listen` and `console.log`. Handlers are methods that return an outcome.
- The `fetch` calls are not modelled. The registry snapshot is an input, assumed well-typed (`nodeId` a number, `pubKey` a string). The post to the entry node is returned, not sent.
- The `../crypto` module is not part of this model. Its functions are uninterpreted fields of `Crypto`. No decryption is modelled, because the code gives nothing to back it.
- Key generation and PEM/base64 export in the router are library calls. The key pair is an input.
- The randomness of `createRandomSymmetricKey` is not modelled. Its keys are an input, one per layer; freshness and distinctness of keys are not stated.
- `Math.random` is not modelled. Its draws are an input; see above for the loop that does not end.
- Async interleavings are not modelled. Between the assignment at src/users/user.ts:79 and the reversal at line 104, a concurrent `/getLastCircuit` would see the circuit in pick order. Two concurrent sends could also interleave on the shared `lastCircuit`.
- JavaScript numbers are integers here. Non-integer ids, precision loss above 2^53, and the exponent form that `String(n)` uses for |n| ≥ 10^21 are not modelled.
- `UserService.User.SendMessage`: does not model a crypto call that rejects (src/users/user.ts:87, 88, 91, 97), for example on a malformed `pubKey`. The directory accepts any non-empty key, and the snapshot is only cast at line 69. After such a rejection the handler has stopped past line 79: `lastCircuit` holds the circuit unreversed, in pick order; `lastSentMessage` is unchanged; nothing is posted. The model assumes every call returns.
- `UserService.User.SendMessage`: randomized encryption is not modelled. Real `symEncrypt` and `rsaEncrypt` draw fresh randomness (an IV, padding), so two runs give different ciphertexts. Here they are deterministic functions, so the onion stated is the one those functions determine.
- `UserService.User.SendMessage`: takes the `/sendMessage` body as typed (`message` a string, `destinationUserId` an integer). The source only casts `req.body` at src/users/user.ts:65. With a string id, `BASE_USER_PORT + destinationUserId` at line 83 concatenates strings (a base port of 3000 and the id "7" give "30007"), so the innermost layer names a different port. A non-string `message` is coerced at line 91 and stored as it is at line 106.
- The `/message` body is taken to carry a string `message`. Other JSON types stored by the handler are not modelled.
- `UserService.EncryptLayers`: requires exactly one key per circuit node. The source creates one key inside each iteration.
