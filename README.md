# Moo Chapatis order store, modelled in Dafny

Moo Chapatis is a one-vendor chapati ordering form with a live admin order
board. Orders are kept in one JSON file, `orders.json`, which is always
rewritten in full. Expired orders are removed lazily, with no background
timer. The order form (on GET and on POST, `moo_chapatis.py:63`), the
logged-in admin board (`moo_chapatis.py:97`) and every new order
(`moo_chapatis.py:41`) first drop every order whose `expires_at` is not
later than the current time. The `/admin` page touches no file, and the
admin board redirects before any cleanup when the session flag is missing.
A new order costs `quantity * 20`. It expires four hours after it is
placed. It is appended to the file and broadcast to connected admin boards
as a `new_order` event.

The model has two modules:

- `Orders` (`orders.dfy`) is the pure part. It holds the `Order` record, the
  price rule `TotalPrice`, the record builder `NewOrder` and the cleanup
  filter `Prune`. The lemmas prove what cleanup keeps, that it keeps the
  original order, that it is idempotent, and how cleanups at different
  times compose.
- `Store` (`store.dfy`) is the stateful part. The class `OrderStore` has the
  order file as a field `file`, which is either `Missing` or
  `Written(orders)`. It also has a ghost log `broadcasts` of the orders sent
  to admin boards. Its methods `LoadOrders`, `SaveOrders`, `CleanupOrders`
  and `SaveNewOrder` model `load_orders`, `save_orders`, `cleanup_orders` and
  `save_new_order`. `SubmitOrder` is the POST path of
  the order form: clean up, compute the price, save the new order.

Timestamps are integers in microseconds, the precision of
`datetime.isoformat()`, so four hours is `Retention` = 14 400 000 000. The code
reads `datetime.now()` separately in each place, and the model gives each
reading its own parameter: `now` for `cleanup_orders` (line 36); `pruneNow`,
`createdNow` and `expiryNow` for the three readings in `save_new_order`
(lines 41, 48 and 49); and `requestNow` for the cleanup at the start of the
form handler (line 63). No ordering between the readings is required. Every
property that depends on that ordering states it as a hypothesis.
`Orders.NewOrder` states that with one reading
(`createdNow == expiryNow`) an order lives exactly four hours.

Three details of the code shape the model:

- The form's HTML asks for a quantity of at least 1 (`min="1"`,
  `moo_chapatis.py:235`), but the handler's `int(...)` at
  `moo_chapatis.py:70` never checks it. So `TotalPrice` is defined for every
  integer: 0 costs 0 and a negative quantity gets a negative price.
- `created_at` and `expires_at` come from two separate clock readings
  (`moo_chapatis.py:48-49`). So the gap between them is four hours plus the
  time between the readings. It is exactly four hours only when the two
  readings agree.
- A corrupt file makes `json.load` (`moo_chapatis.py:28`) raise. The model's
  file only ever holds what `SaveOrders` wrote, so that case does not arise
  in the model.

## Model

| member | source | states |
|---|---|---|
| `Orders.TotalPrice` | moo_chapatis.py:70-72 | The price is a multiple of `UnitPrice` (20), and dividing it by 20 gives back the quantity. A quantity of at least 1 costs at least 20. The price is 0 exactly when the quantity is 0, and negative exactly when the quantity is negative, because nothing validates it. |
| `Orders.Prune` | moo_chapatis.py:37 | The kept orders are exactly the input orders with `expires_at` strictly later than `now`, and there are no more of them than there were inputs. |
| `Orders.PruneIsSubsequence` | moo_chapatis.py:37 | Cleanup keeps a subsequence of its input: it never adds, alters or reorders an order. |
| `Orders.ExpiryBoundary` | moo_chapatis.py:37 | A stored order survives cleanup exactly when its expiry is later than `now`. An order expiring exactly at `now` is removed. |
| `Orders.PruneAppend` | moo_chapatis.py:37 | Cleanup of a concatenation is the concatenation of the cleanups: each order is decided on its own. |
| `Orders.PruneUnchangedIffAllLive` | moo_chapatis.py:37 | Cleanup returns its input unchanged exactly when every order in it is unexpired. Both directions are proved. |
| `Orders.PruneAllLive` | moo_chapatis.py:37 | When no order in the list has expired, cleanup returns the list itself, in the same order. |
| `Orders.PruneLaterAbsorbs` | moo_chapatis.py:34-38 | A cleanup at `now` followed by one at `later >= now` gives the same list as the later cleanup alone. |
| `Orders.PruneIdempotent` | moo_chapatis.py:34-38 | A second cleanup at the same time changes nothing. |
| `Orders.PruneLaterIsSubsequence` | moo_chapatis.py:34-38 | A later cleanup keeps a subsequence of what an earlier cleanup keeps. |
| `Orders.NewOrder` | moo_chapatis.py:43-50 | The new record carries the given product, quantity, price and location, `created_at` is the first clock reading, and `expires_at` is the second reading plus four hours. Its lifetime `expires_at - created_at` is exactly four hours when both clock readings agree, and at least four hours when the expiry reading comes no earlier. It is unexpired one microsecond before four hours after the expiry reading, and expired at exactly four hours. |
| `Orders.AppendAfterPruneStaysLive` | moo_chapatis.py:41-52 | After cleaning up at `now` and appending an order that is unexpired at `now`, every stored order is unexpired at `now`, and a further cleanup at `now` changes nothing. |
| `Orders.FourHourWindow` | moo_chapatis.py:48-49 | An order created at `t` from one clock reading survives a cleanup at `t + 4h - 1min` and is removed by a cleanup at `t + 4h + 1min`. |
| `Store.OrderStore.LoadOrders` | moo_chapatis.py:24-28 | Returns the stored list, and the empty list (not an error) when no file exists. |
| `Store.OrderStore.SaveOrders` | moo_chapatis.py:30-32 | The file afterwards holds exactly the given list. It fully replaces the old list and merges nothing, so a following load returns that list. |
| `Store.OrderStore.CleanupOrders` | moo_chapatis.py:34-38 | The file afterwards holds the cleanup of the old contents, even if the file was missing before. Its orders are exactly the old orders that expire after `now`, and they form a subsequence of the old list. |
| `Store.OrderStore.SaveNewOrder` | moo_chapatis.py:40-57 | The returned order is the record built from the arguments and the two clock readings. The file holds the pruned old contents followed by that order, so its length is the pruned length plus 1 and its last element is the returned order. The order is appended to the broadcast log. When the new order is unexpired at the cleanup time, every stored order is unexpired then and a cleanup at that time is a no-op. |
| `Store.SubmitOrder` | moo_chapatis.py:63-76 | The saved order's price is `TotalPrice(quantity)`, and its fields and timestamps come from the form and the clock. The file holds the two successive cleanups of the old contents followed by the order, which is the later cleanup alone when the clock has not gone backwards. The order is broadcast. |
| `Store.ResaveIsNoop` | moo_chapatis.py:24-32 | Saving the list that was just loaded leaves the stored orders unchanged, and broadcasts nothing. A missing file becomes a written empty list. |

## Left out

- Flask routing, the HTML and JavaScript templates, the admin login page and the session check, and the admin order board (`admin_orders`, which cleans up and then loads). These are presentation and web glue.
- Form parsing in the handler: a missing `product` or `location` (which would be `None`) and a non-numeric quantity (which makes `int(...)` raise). The model takes strings and an integer.
- JSON encoding and decoding, the ISO-8601 formatting and parsing of timestamps, `os.path.exists`, and I/O failures such as a full disk or a corrupt file. The file is the field `file`, and a timestamp is an integer count of microseconds.
- `datetime.now()`: each reading is an integer parameter, and no monotonicity of the wall clock is assumed.
- `socketio.emit` is only recorded as an append to the ghost `broadcasts` log. Delivery to subscribers is not modelled, and neither is the `print` to the console.
- The read-modify-write race between concurrent submissions, and eventlet's monkey-patching. The model is sequential, one request at a time.
- The server start-up block and the `CONTACTS` and `ADMIN_PASSWORD` constants.
