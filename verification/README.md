# mihttpd in Dafny

mihttpd is a small name-based reverse proxy. At start-up it reads
`config.conf` and parses it into `server { servername …; port …; proxy_pass …; }`
blocks, then builds a table from server name to block. For each request it then
does one of three things:

- It serves a fixed welcome page when the `Host` header is unusable or the path is `/`.
- It forwards the request to `proxy_pass` followed by the original path and query when the host names a table entry.
- It answers 404 otherwise.

This project models that core (`src/main.rs`) and proves properties of the model:

- `Decimal`: Rust's `str::parse::<u16>` as the configuration's port field uses it.
  It is checked digit by digit, and an overflow is an error.
  The module also has decimal printing, which the round trip needs.
- `ConfigParser`: the nom grammar, i.e. `parse_word`, the field parser, `parse_server` and `parse_config`.
  Each parser returns `Done(value, rest)`, `Fail` (nom's recoverable error), or `Panic`.
  `Panic` stands for the process abort caused by the `unwrap` on a port that is not a `u16`.
- `ConfigGrammar`: the grammar stated as text.
  A `BlockText` is a block with its eight whitespace gaps.
  `Render` gives the text of a `BlockText`, and `Meaning` gives the entry it denotes.
  This module proves completeness and soundness of `parse_server`, plus the behaviour of `parse_config` on any text.
  It also has a printer, `PrintConfig`, and proves the parse/print round trip.
- `RoutingTable`: the loop in `main` that fills the `HashMap`.
  It is an imperative method proved against `LastWith`, where a later block with the same name wins.
  The module also covers start-up, where a panic means no table.
- `Dispatch`: `proxy`'s decision.
  It covers the `Host` header as `HeaderValue::to_str` accepts it, the precedence of the welcome page, and the exact-match lookup.
  It also has the upstream URI, and an end-to-end lemma that goes from configuration text to outcome.

Two places where the code departs from the layout the block format suggests (a required space after each keyword, a malformed block being an error); the model follows the code:

- Whitespace is optional at each of the places `multispace0` is applied: the eight inside `parse_server` (the `BlockText.gaps`), and before and after each block in `parse_config`. So `server{servername a;…}` is accepted.
  No whitespace is allowed between a value and its `;`. So `servername a ;` makes that block fail, and the parse ends in front of it.
- A block that fails to parse does not make start-up fail. `many0` stops at it and `load_config` keeps the blocks before it, ignoring the rest of the file.
  Only a port that is not a `u16` aborts start-up. It does so even when the rest of that block is malformed, and even when it is the first block.

The `port` field is parsed and stored but not used for routing: the server always listens on port 80.
`many0` treats an element that succeeds without consuming input as an error. That guard never fires here, because a parsed block is never empty (`ConfigParser.ParseServer` ensures its rest is strictly shorter than its input).

## Model

| member | source | states |
|---|---|---|
| `Decimal.ToDecimal` | src/main.rs:40 | Printing a port gives a non-empty digit string whose decimal value is that port, with no leading zero unless the port is 0. |
| `Decimal.ParseU16` | src/main.rs:40 | `parse::<u16>` succeeds exactly when the text is an optional `+` then one or more digits whose value is at most 65535, and it then returns that value. |
| `Decimal.AccumulateValue` | src/main.rs:40 | The checked multiply-and-add digit loop ends with the value of all digits exactly when the digits are all decimal and the value fits in 16 bits; otherwise it reports an error. |
| `Decimal.ValueGrows` | src/main.rs:40 | Appending digits never lowers the value, so once the loop overflows, no longer digit string fits. |
| `Decimal.ParseU16ToDecimal` | src/main.rs:40 | Parsing a printed port gives the port back. |
| `ConfigParser.Tag` | src/main.rs:27 | `tag` succeeds exactly when the text starts with the tag, and it consumes exactly the tag. |
| `ConfigParser.SkipSpace` | src/main.rs:28 | `multispace0` never grows the text, and it leaves text that is empty or starts with a non-whitespace character. |
| `ConfigParser.SkipSpaceSplit` | src/main.rs:28 | `multispace0` consumes exactly a run of spaces, tabs, CRs and LFs: the input is that run followed by what is left. |
| `ConfigParser.WordLength` | src/main.rs:23 | The word run is maximal: every character before it is a word character, and the next one (if any) is not. |
| `ConfigParser.ParseWord` | src/main.rs:22-24 | `parse_word` succeeds exactly when the input starts with an alphanumeric, `.` or `:`. It returns a non-empty word and the rest, together they are the input, and the rest does not start with a word character. It never aborts. |
| `ConfigParser.ParseField` | src/main.rs:32-35 | A `key <ws> word ;` field yields a word and strictly shortens the input. |
| `ConfigParser.ParseServer` | src/main.rs:26-57 | Success or an abort requires the text to start with `server`. A parsed block's name and upstream are words, and the rest is strictly shorter than the input. |
| `ConfigParser.ParseConfig` | src/main.rs:59-61 | `parse_config` never returns an error, and what it leaves is no longer than its input. |
| `ConfigParser.ParseConfigStops` | src/main.rs:59-61 | `many0` stops only where `parse_server` fails on the rest after its leading whitespace. |
| `ConfigParser.ParseConfigWords` | src/main.rs:59-61 | Every returned entry has a word as its server name and as its upstream. |
| `ConfigGrammar.ParseServerRender` | src/main.rs:26-57 | Completeness: every well-formed block (the fields in the fixed order, any whitespace gaps, a port that fits in 16 bits) parses to the entry it denotes. The parse stops right after `}`, whatever follows. |
| `ConfigGrammar.ParseServerBadPort` | src/main.rs:38-41 | A port word that is not a `u16` aborts the parse as soon as the port field is read, whatever follows. |
| `ConfigGrammar.ParseServerSound` | src/main.rs:26-57 | Soundness: `parse_server` succeeds only on a well-formed block followed by the returned rest. So another field order, a missing field or a missing `}` never parses. |
| `ConfigGrammar.ParseServerPanicSound` | src/main.rs:38-41 | An abort happens only after `server {`, a `servername` field and a `port` field whose word is not a `u16`. |
| `ConfigGrammar.ParseServerRest` | src/main.rs:26-57 | What `parse_server` leaves is a proper suffix of its input. |
| `ConfigGrammar.BlockOf` | src/main.rs:26-57 | Every entry whose name and upstream are words has a well-formed block that denotes it. |
| `ConfigGrammar.ParseConfigCons` | src/main.rs:59-61 | One round of `many0` on printed text: the first block's entry, then the parse of the remaining blocks and what follows them. |
| `ConfigGrammar.ParseConfigAfterPrinted` | src/main.rs:59-61 | `parse_config` reads printed blocks one by one, in order, and then continues on the following text exactly as it would on its own. |
| `ConfigGrammar.ParseConfigPrinted` | src/main.rs:59-61 | Round trip: parsing printed entries gives them back and consumes all the text. |
| `ConfigGrammar.ParseConfigAfterBlocks` | src/main.rs:59-61 | Completeness: any run of well-formed blocks, each followed by any whitespace, is read block by block, in order. The parse then goes on with the following text exactly as it would on its own. |
| `ConfigGrammar.ParseConfigAfterLead` | src/main.rs:59-61 | The same with any whitespace in front of the first block: it is skipped and changes nothing. |
| `ConfigGrammar.ParseConfigNoBlock` | src/main.rs:59-61 | Where no block starts after the whitespace, `parse_config` returns no entries and consumes nothing, not even the whitespace. |
| `ConfigGrammar.ParseConfigBadPort` | src/main.rs:59-61 | When whitespace is followed by a block that aborts, the whole parse aborts. |
| `ConfigGrammar.ParseConfigStopsAtBadBlock` | src/main.rs:59-61 | For any whitespace and any run of well-formed blocks followed by a block that fails: the entries of the good blocks are returned, in order, and the failing block and everything after it are left unconsumed. With no good block, the leading whitespace is left unconsumed too. |
| `ConfigGrammar.ParseConfigPanicsAtBadPort` | src/main.rs:59-61 | For any whitespace and any run of well-formed blocks, a following block with a bad port aborts the whole parse. |
| `ConfigGrammar.ParseConfigRest` | src/main.rs:59-61 | What `parse_config` leaves is a suffix of its input. |
| `ConfigGrammar.ParseConfigSound` | src/main.rs:59-61 | On any text, `parse_config` consumes whitespace followed by well-formed blocks, each followed by whitespace. It returns exactly the entries those blocks denote, in source order, and the rest follows them. |
| `RoutingTable.Names` | src/main.rs:102-104 | The names are exactly the server names occurring in the blocks. |
| `RoutingTable.LastWith` | src/main.rs:102-104 | The entry kept for a name is one of the blocks and carries that name. There is none exactly when no block has the name. |
| `RoutingTable.LastWithIsLast` | src/main.rs:102-104 | Last write wins: the kept entry sits at a position after which no block has that name. |
| `RoutingTable.LastWithSnoc` | src/main.rs:103 | Inserting one more block changes the entry for its own name only. |
| `RoutingTable.TableUnique` | src/main.rs:101-104 | The table is determined by the blocks: two tables that both fit the same blocks are equal. |
| `RoutingTable.TableKeysAreNames` | src/main.rs:103 | Every entry is filed under its own server name and is one of the blocks. |
| `RoutingTable.BuildTable` | src/main.rs:101-104 | The loop's table has exactly the blocks' names as keys. Each key maps to the last block with that name, so nothing else is in the map. |
| `RoutingTable.Startup` | src/main.rs:68-71 | Start-up aborts exactly when `parse_config` aborts. Otherwise the table fits the returned blocks, and the unparsed rest of the file is ignored. |
| `Dispatch.AsText` | src/main.rs:79 | The header text has one character per byte, with the same code. |
| `Dispatch.HostOf` | src/main.rs:79 | The host is empty exactly when the header is missing, empty, or holds a byte other than visible ASCII, space or tab. Otherwise it is the header's text. |
| `Dispatch.UpstreamUri` | src/main.rs:85 | The upstream URI starts with `proxy_pass` and continues with the path and query, or is just `proxy_pass` when there is none. |
| `Dispatch.Proxy` | src/main.rs:79-95 | The welcome page (200) comes back exactly when the host is empty or the path is `/`, whatever the table holds. A forward happens exactly when the host is non-empty, the path is not `/` and the host is a key (an exact, case-sensitive match). It keeps the method and targets the entry's upstream. A 404 "Not Found" comes back exactly when the host is non-empty, the path is not `/` and the host is not a key. |
| `Dispatch.ProxyConfigured` | src/main.rs:79-104 | With the table built from parsed text, a request is forwarded exactly when its host is the name of some parsed block. It goes to the upstream of the last such block, and only a host that is a word can be forwarded. |

## Left out

- Reading `config.conf` (`load_config`'s file I/O): the configuration text is a parameter. A missing or unreadable file is an abort that the model does not represent.
- The `Err` arm of `load_config`'s match: `parse_config` cannot return an error (`ConfigParser.ParseConfig` proves this), so that arm is unreachable.
- The hyper server, tokio, `Arc` sharing and the listener on port 80: the model has no concurrency and no sockets.
- The network call `client.request` and the upstream's response: a forward is returned as `Forward(verb, uri)`.
- `Request::builder().uri(uri).unwrap()`: the model does not check that the concatenated URI is a valid URI. So an upstream and path that hyper would reject, which panics inside the handler, appear as an ordinary `Forward`.
- ConfigParser.IsAlphanumeric: ASCII letters and digits only. Rust's `char::is_alphanumeric` also accepts non-ASCII letters and numerals, which the model treats as non-word characters.
- Dispatch.HostOf: only the first `Host` header value is modelled (what `HeaderMap::get` returns), given as raw bytes. How hyper fills in the header and the URI is not modelled.
- Request bodies, which are forwarded unchanged, and the inbound headers, which the forwarded request does not carry (`Request::builder` is given only the method, the URI and the body).
