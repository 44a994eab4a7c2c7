# Container launcher core, modelled in Dafny

This project models the deterministic logic at the heart of a small Linux
container launcher written in C. Every system call and library it relies on
becomes a parameter: an oracle that says whether a call succeeds, or what a
parser returns. The model then states and proves what the launcher computes
from those answers. It covers these pieces:

- **rtnetlink request builder** (`netlink.dfy`). `addattr_l`,
  `addattr_nest`, `addattr_nest_end` and `_nlmsg_put` append 4-byte-aligned
  `rtattr` attributes to an `nlmsghdr` buffer. Closing a nest back-patches its
  length. The layout is the one in section 2.3.2 of RFC 3549.
- **The two RTM_NEWLINK requests** (`netlink_requests.dfy`). `create_veth`
  builds a veth pair whose peer sits inside three nested attributes.
  `move_if_to_pid_netns` moves an interface into a network namespace.
  `send_nlmsg` bumps the sequence number.
- **Reply classification** (`netlink_reply.dfy`). `check_response` prints
  notes about a reply. `_nlmsg_recieve` turns a reply into a status.
- **CIDR parsing and iptables entries** (`cidr.dfy`, `iptables.dfy`).
  - `_init_addr` reads `a.b.c.d/p` into an address and a prefix mask
    (section 3.1 of RFC 4632).
  - `_ipt_rule`, `masquerade` and `forward` size an `ipt_entry` and pick its
    target block. libiptc's calls are recorded in a trace.
- **cgroup limits** (`cgroup.dfy`). `init_resources` turns the requested
  values into decimal text, with defaults. It rescales a CPU percentage to
  shares of 1024.
- **Command line** (`cli.dfy`). `main` runs a `getopt` loop: value options
  need an earlier `-c`, a non-empty argument and a value in range, and `-a`
  is required to run.
- **Child entry point** (`entrypoint.dfy`). `get_child_entrypoint` copies the
  arguments after the options.
- **Root filesystem** (`mount.dfy`). `prepare_rootfs`, `perform_pivot_root`
  and `get_rootfs` are modelled as ordered plans of calls. Each run yields a
  trace; the first checked call that fails ends the process.
- **User namespace maps** (`user.dfy`). `update_map`, `proc_setgroups_write`
  and `map_uid_gid` write the UID map, then `deny` to `setgroups`, then the
  GID map.
- **Syscall filter** (`seccomp.dfy`). `sys_filter` builds a table of twelve
  rules. The model gives the verdict for any call, and the short-circuiting
  set-up of the filter.
- **Capability drop** (`capabilities.dfy`). `drop_caps` drops a fixed list
  of 28 capabilities from the bounding set and clears them from the
  inheritable set.
- **Dispatcher** (`dispatcher.dfy`). `dispatcher` maps a command name to a
  code.
- **Shared pieces.** `common.dfy` holds C integer conversions and
  little-endian bytes. `decimal.dfy` holds `%ld` printing and `strtol`
  reading.

A few behaviours of the code are worth stating plainly, since the model
follows them:

- `sys_filter` kills the process on a matching call
  (`SCMP_ACT_KILL_PROCESS`); it does not make the call fail. It installs
  twelve rules.
- The `/dev/fd` and `/dev/std*` symlinks of `prepare_dev_fd` are commented
  out.
- Each netlink request starts from a zeroed header, so both requests go out
  with sequence number 1 (`NetlinkRequests.RequestsSentWithSeqOne`).
- `check_response` only prints: a malformed or error reply does not end the
  process.

## Model

| member | source | states |
|---|---|---|
| Common.TruncDiv | src/namespaces/cgroup/cgroup.c:56 | C's `/` by a positive divisor rounds toward zero: for a non-negative dividend the quotient is the largest multiple not above it; for a negative one, the smallest not below it |
| Decimal.FromInt | src/namespaces/cgroup/cgroup.c:32 | the `%ld` text of x is an optional minus sign, then digits with no superfluous leading zero, whose value is the magnitude of x |
| Decimal.StrToL | src/main.c:42 | `strtol` always yields a `long`: the leading integer of the text when it fits, LONG_MAX when it is larger and LONG_MIN when it is smaller |
| Decimal.StrToLFromInt | src/namespaces/cgroup/cgroup.c:32 | `strtol` reads back exactly the `long` that `%ld` printed |
| Decimal.DecimalUnique | src/namespaces/cgroup/cgroup.c:32 | any text that is a well-formed decimal rendering of x is the one `%ld` prints |
| Dispatcher.Dispatch | src/helpers.c:17-27 | the code is RUN exactly for "run", CHILD exactly for "child", and COMMAND_NOT_FOUND exactly for every other string |
| Dispatcher.CommandName | src/helpers.h:4-8 | a code has a command name exactly when it is RUN or CHILD |
| Dispatcher.DispatchRoundTrip | src/helpers.c:17-27 | dispatching the name of a code gives the code back, and every recognised name is the name of the code it dispatches to |
| Dispatcher.DispatchIsExact | src/helpers.c:18-21 | matching is exact: "Run", "run " and "CHILD" are not recognised |
| Cli.ApplyOption | src/main.c:28-118 | one option is accepted exactly when it passes its checks; an unknown option leads to the usage text and any other refusal to an abort; the flags record `-a` and `-c`, and stored limits stay in range |
| Cli.ParseOptions | src/main.c:27-135 | `main` runs exactly when every option is accepted and `-a` is present; it prints the usage text exactly when the first refused option is unknown; on a run the cgroup flag says whether `-c` was given and every limit is unset or in its range |
| Cli.NotAllAccepted | src/main.c:27-119 | once an option other than an unknown one is refused, no later unknown option is the first refusal |
| Cli.OverflowRefused | src/main.c:37-105 | a value option whose text overflows a `long` is refused, because `strtol` saturates it to a value outside every range |
| Entrypoint.AllocTooSmall | src/helpers/helpers.c:312-316 | whenever an entry point is given, the bytes allocated are fewer than the bytes the copy loop stores (1 against 8 for `prog -a sh`) |
| Entrypoint.ChildEntrypoint | src/helpers/helpers.c:305-317 | the entry point is exactly the arguments from `optind` on, in order, and the allocation holds one pointer for each |
| Cgroup.DefaultsAreDecimal | src/namespaces/cgroup/cgroup.h:6-9 | the default texts are the decimal renderings of 64 tasks, weight 10, 256 shares and 1 GiB |
| Cgroup.SharesOf | src/namespaces/cgroup/cgroup.c:56 | a percentage from 1 to 100 becomes 10 to 1024 shares, and the shares are the percentage of 1024 rounded down |
| Cgroup.SharesMonotone | src/namespaces/cgroup/cgroup.c:56 | a larger percentage never yields fewer shares |
| Cgroup.InitResources | src/namespaces/cgroup/cgroup.c:6-66 | there is no result exactly when the cgroup flag is off; otherwise the four flags are copied, and each limit is the decimal text of the requested value when its flag is set and of its default when not |
| Cgroup.InitResourcesReadBack | src/namespaces/cgroup/cgroup.c:30-60 | reading each limit back with `strtol` gives the requested value, or the default's value |
| Cgroup.SharesExamples | src/namespaces/cgroup/cgroup.c:54-60 | 50 percent is stored as "512", 100 percent as "1024", and no request as "256" |
| User.ProcPathInjective | src/namespaces/user/user.c:19 | different process ids give different `/proc` paths |
| User.MapPathsDiffer | src/namespaces/user/user.c:19-25 | a child's UID map and GID map are different files |
| User.CommasToNewlines | src/namespaces/user/user.c:38-41 | every comma becomes a newline, every other character and the length are kept, and no comma remains |
| User.CommasToNewlinesIdempotent | src/namespaces/user/user.c:38-41 | rewriting a second time changes nothing |
| User.WithoutCommasUnchanged | src/namespaces/user/user.c:38-41 | a text without commas is written unchanged |
| User.MappingUnchanged | src/namespaces/user/user.c:20 | the mapping "0 100000 65536" is written unchanged |
| User.UpdateMap | src/namespaces/user/user.c:32-53 | the process ends exactly when the open fails or the write is not the whole mapping; otherwise the trace is open, one write of the rewritten mapping, close; every call is on the map file |
| User.SetgroupsWrite | src/namespaces/user/user.c:56-87 | the first call opens `/proc/<pid>/setgroups`; the text is written exactly when the open succeeds; an error is reported exactly when the open fails with an errno other than ENOENT or the write fails |
| User.MapInOrderOrder | src/namespaces/user/user.c:13-29 | if the GID map is written, the trace begins with the complete UID map write followed by the first `setgroups` call |
| User.MapOrder | src/namespaces/user/user.c:13-29 | for `map_uid_gid`, writing the GID map implies the trace starts: open, write and close the UID map, then open `setgroups` |
| User.MapSucceedsIff | src/namespaces/user/user.c:13-53 | the mapping completes exactly when both map files open and take the whole mapping in one write |
| Seccomp.FirstMatch | src/seccomp/seccomp_config.c:49-66 | the result is the first rule, in table order, that the call matches, and none when no rule matches |
| Seccomp.Decide | src/seccomp/seccomp_config.c:19-66 | a call is killed exactly when some rule matches it, and allowed by default otherwise |
| Seccomp.RuleForbids | src/seccomp/seccomp_config.c:50-65 | every rule matches only calls that are meant to be forbidden |
| Seccomp.ForbiddenMatches | src/seccomp/seccomp_config.c:50-65 | every forbidden call matches some rule |
| Seccomp.DecideIffForbidden | src/seccomp/seccomp_config.c:19-66 | the filter kills exactly the forbidden calls: chmod or fchmod with a set-id bit in argument 1, fchmodat with one in argument 2, unshare or clone with CLONE_NEWUSER, and any keyctl, add_key, request_key or ptrace; ioctl and everything else is allowed |
| Seccomp.SysFilter | src/seccomp/seccomp_config.c:9-83 | the set-up completes exactly when the context is created, all twelve rules are added and the load succeeds; a failed `seccomp_init` stops after that call, and a successful one is always followed by at least one rule add; the rules are added in table order and stop at the first failure; the load is attempted exactly when every rule was added, and is then the last call, after all twelve |
| Capabilities.KeptCapabilities | src/capabilities/capabilities.c:11-40 | the list has 28 entries and contains neither CAP_CHOWN, CAP_SETUID nor CAP_NET_RAW |
| Capabilities.DropListDistinct | src/capabilities/capabilities.c:11-40 | no capability appears twice in the list |
| Capabilities.DropList | src/capabilities/capabilities.c:42-59 | the drops are made in list order, and the first failure is the last call; the inheritable set is read only after every drop succeeded; the bounding set loses exactly the capabilities dropped successfully; the inheritable set loses the whole list exactly on success; other capabilities keep their membership in both sets |
| Capabilities.DropCaps | src/capabilities/capabilities.c:8-62 | on return, no listed capability is left in either set and every other one is where it was; after a failure the inheritable set is untouched |
| Netlink.Align4 | src/helpers/helpers.c:19 | the aligned length is the least multiple of 4 at or above the length |
| Netlink.AlignedSum | src/helpers/helpers.c:19 | an aligned length plus an aligned attribute size is itself aligned |
| Netlink.OverwriteContents | src/helpers/helpers.c:28-29 | after the copy, the range holds the copied bytes and every other byte is unchanged |
| Netlink.AddAttr | src/helpers/helpers.c:13-32 | the attribute header with the unpadded length and the type sits at the old aligned tail, followed by the payload; no other byte or header field changes; `nlmsg_len` becomes the old aligned length plus the padded attribute, a multiple of 4 |
| Netlink.AddAttrNest | src/helpers/helpers.c:34-41 | an empty attribute is appended and its offset, the old tail, is returned |
| Netlink.AddAttrNestEnd | src/helpers/helpers.c:43-46 | the nest's length becomes the 16-bit distance from it to the current tail; its type, every other byte and the header are kept |
| Netlink.NlmsgPut | src/helpers/helpers.c:452-462 | the same append with the type and attribute length narrowed to 16 bits and the new `nlmsg_len` to 32 bits, still a multiple of 4 and unchanged by the narrowing when it fits; a missing data pointer leaves the payload bytes as they were |
| Netlink.AppendedUnique | src/helpers/helpers.c:13-32 | the append contract determines the resulting message completely |
| Netlink.AppendedRoundTrip | src/helpers/helpers.c:24-29 | reading back an appended attribute yields its type and exactly its payload |
| Netlink.NlmsgPutAgreesWithAddAttr | src/helpers/helpers.c:452-462 | given a 16-bit type, the whole payload and a new length that fits `nlmsg_len`, `_nlmsg_put` builds exactly the message `addattr_l` builds |
| NetlinkRequests.NewLinkRequest | src/helpers/helpers.c:188-195 | the request starts with the given flags, type RTM_NEWLINK, family PF_NETLINK, sequence number 0, and every other byte zero |
| NetlinkRequests.CreateVeth | src/helpers/helpers.c:185-218 | the request holds IFLA_IFNAME(ifname), then IFLA_LINKINFO with IFLA_INFO_KIND "veth" and IFLA_INFO_DATA, which holds VETH_INFO_PEER, which holds an ifinfomsg-sized zero gap and IFLA_IFNAME(peer); every nest reaches to the end of the message |
| NetlinkRequests.VethNamesReadBack | src/helpers/helpers.c:199-215 | the kernel reads back the interface name, the kind "veth" and the peer name, each with its NUL |
| NetlinkRequests.VethAttributesChain | src/helpers/helpers.c:199-215 | walking the attributes by their padded lengths leads from each to the next, and each nest ends exactly at `nlmsg_len` |
| NetlinkRequests.MoveIfToPidNetns | src/helpers/helpers.c:220-234 | the request holds IFLA_NET_NS_FD with the descriptor's four bytes, then IFLA_IFNAME(ifname), with request and acknowledge flags |
| NetlinkRequests.MoveReadBack | src/helpers/helpers.c:220-234 | the kernel reads back the descriptor, as a signed 32-bit value, and the name |
| NetlinkRequests.SendNlmsg | src/helpers/helpers.c:116-135 | only the sequence number changes, and it grows by one modulo 2^32 |
| NetlinkRequests.RequestsSentWithSeqOne | src/helpers/helpers.c:130 | both requests go out with sequence number 1 |
| NetlinkReply.DataLen | src/helpers/helpers.c:80-81 | for a length field below 2^31 the data length is the field minus 16; it always fits a C `int` |
| NetlinkReply.ReadNotes | src/helpers/helpers.c:57-61 | "EOF on netlink" is printed exactly when `recvmsg` returned 0; the receive error is printed exactly when it returned a negative value; nothing is printed exactly when some bytes were read |
| NetlinkReply.ErrorNotes | src/helpers/helpers.c:92-101 | for an NLMSG_ERROR reply only: "ERROR truncated!" is printed exactly when the data length is from 0 to 19, since a negative one compares as a huge unsigned value; an RTNETLINK error is reported exactly when `error` is non-zero, as that error negated |
| NetlinkReply.CheckResponseAsWritten | src/helpers/helpers.c:66-105 | the reply is reported malformed exactly when the source's signed test fires, with the truncation note exactly when MSG_TRUNC is also set; the "ERROR truncated!" and RTNETLINK notes are as for `ErrorNotes`, and the EOF and receive-error notes as for `ReadNotes` |
| NetlinkReply.CheckResponse | src/helpers/helpers.c:66-105 | the reply is reported malformed exactly when its length field is below a header or above the bytes read, with the truncation note exactly when MSG_TRUNC is also set; the "ERROR truncated!" and RTNETLINK notes are as for `ErrorNotes`, and the EOF and receive-error notes as for `ReadNotes` |
| NetlinkReply.MalformedAsWrittenMissesHugeLength | src/helpers/helpers.c:80-84 | a length field of 2^31 passes the signed test on a 36-byte read, although it is incomplete |
| NetlinkReply.MalformedAsWrittenAgreement | src/helpers/helpers.c:80-84 | the signed test agrees with the intended one except for length fields from 2^31 to 2^31 + 15 |
| NetlinkReply.NlmsgRecieve | src/helpers/helpers.c:481-506 | the status is 0 exactly for an NLMSG_ERROR reply whose `error` is not negative, and 1 otherwise |
| NetlinkReply.ErrorReplyReadBack | src/helpers/helpers.c:92-99 | the length, type and error the kernel encodes in an acknowledgement are the ones the reader decodes |
| NetlinkReply.AckIsSilent | src/helpers/helpers.c:66-105 | a complete acknowledgement makes `check_response` print nothing |
| NetlinkReply.ErrorIsReported | src/helpers/helpers.c:92-101 | a complete error reply for errno e prints exactly the report of e, and makes `_nlmsg_recieve` return 1 |
| NetlinkReply.AckIsReceived | src/helpers/helpers.c:494-505 | an acknowledgement makes `_nlmsg_recieve` return 0 |
| Cidr.LastSlash | src/helpers/helpers.c:596 | the position found holds a slash and no slash follows it |
| Cidr.SplitCidr | src/helpers/helpers.c:596-601 | the text is the address part, a slash and the prefix part, and the prefix part holds no slash |
| Cidr.SplitCidrJoin | src/helpers/helpers.c:596-601 | splitting at the last slash undoes joining with a slash-free suffix |
| Cidr.PrefixMask | src/helpers/helpers.c:598 | bit k of the mask is set exactly when k is at least 32 - p, so exactly the top p bits are set |
| Cidr.MaskBits | src/helpers/helpers.c:598 | the 32-bit shift of all ones by 32 - p has exactly the top p bits set |
| Cidr.PrefixMasksNest | src/helpers/helpers.c:598 | a longer prefix's mask contains a shorter prefix's mask |
| Cidr.PrefixMaskExamples | src/helpers/helpers.c:598 | /24 gives 0xFFFFFF00, /32 all ones and /1 the top bit only |
| Cidr.InitAddr | src/helpers/helpers.c:589-607 | the address is the parse of the text before the last slash, and the mask has exactly the top p bits set for the prefix p after it |
| Cidr.InitAddrOfJoin | src/helpers/helpers.c:589-607 | reading `a/p`, with p printed in decimal, gives the address of a and the mask of p |
| Iptables.XtAlign | src/helpers/helpers.c:524-528 | the aligned size is the least multiple of 8 at or above the size |
| Iptables.RuleEntry | src/helpers/helpers.c:524-571 | the interfaces are copied; an address and mask are set exactly for each address given, and they are what `_init_addr` reads from it; the target is named by the type and is MASQUERADE, sized for the entry-target header plus one range with `rangesize` 1, exactly when the type is "MASQUERADE", and otherwise a standard target of the standard size with the ACCEPT verdict |
| Iptables.RuleEntryLayout | src/helpers/helpers.c:524-571 | the target starts at the aligned size of the fixed entry; the entry's length adds the aligned standard-target size, plus the aligned range size for MASQUERADE; both offsets are 8-aligned and the target lies within the entry; a standard target fills the rest exactly, with the ACCEPT verdict; a MASQUERADE target has one range and leaves the difference of the two target headers as slack |
| Iptables.AppendAndCommit | src/helpers/helpers.c:573-586 | the result is 0 exactly when init, allocation, append and commit all succeed, and -1 otherwise |
| Iptables.AppendAndCommitTrace | src/helpers/helpers.c:516-586 | the handle is created first; the commit is attempted exactly when init, allocation and append succeeded, and then comes right after the append; the entry is freed exactly when it was allocated; only the built entry is appended |
| Iptables.IptRule | src/helpers/helpers.c:508-587 | a missing table, type or chain gives -1 with no library call; a failed `iptc_init` or `calloc` gives -1 after `iptc_init` alone, whatever the addresses hold; the result is 0 exactly when every library call succeeds; only the entry built from the rule is appended |
| Iptables.MasqueradeRule | src/helpers/helpers.c:319-371 | the result is 0 exactly when every library call succeeds |
| Iptables.ForwardRule | src/helpers/helpers.c:373-415 | the result is 0 exactly when every library call succeeds |
| Iptables.ForwardIsIptRule | src/helpers/helpers.c:373-415 | `forward` makes the same calls with the same entry as `_ipt_rule` on the rule it spells out |
| Iptables.MasqueradeVersusIptRule | src/helpers/helpers.c:329-352 | `masquerade` builds the entry `_ipt_rule` builds for the same rule except `next_offset`, which is shorter by the difference of the two target headers, so its target ends the entry exactly |
| Iptables.MasqueradeSource | src/helpers/helpers.c:343-346 | the source "10.1.1.0/24" is read as the address 10.1.1.0 with the /24 mask |
| Mount.Execute | src/namespaces/mount/mount.c:84-206 | the trace is a prefix of the plan; on completion it is the whole plan; every call before the last passed, and on failure the last call is a checked one that failed |
| Mount.ExecuteDoneIff | src/namespaces/mount/mount.c:84-206 | a plan completes exactly when none of its checked calls fails |
| Mount.GetRootfs | src/namespaces/mount/mount.c:344-357 | the path is the working directory with its last five characters replaced by "root_fs" |
| Mount.GetRootfsOfBuild | src/namespaces/mount/mount.c:350-351 | run from `<dir>build`, the root filesystem is `<dir>root_fs` |
| Mount.FsPlan | src/namespaces/mount/mount.c:223-237 | for each table filesystem in order, a checked `mkdir` then a checked `mount` of its type, flags and data at the root path plus its path |
| Mount.MountDefaultFs | src/namespaces/mount/mount.c:222-237 | the loop issues exactly the filesystem plan, and the path buffer ends as it began |
| Mount.ConsoleNotLoopDevice | src/namespaces/mount/mount.c:45-52 | none of the first six devices has the console's path |
| Mount.MknodPlan | src/namespaces/mount/mount.c:241-252 | one checked `mknod` per loop device with its mode and numbers, never of the console |
| Mount.BindDevPlan | src/namespaces/mount/mount.c:278-297 | per loop device: create a placeholder, bind the host device onto it, close it unchecked |
| Mount.CreateDevices | src/namespaces/mount/mount.c:239-298 | the loop issues the `mknod` plan without a user namespace and the bind plan with one; the path buffer ends as it began, and the index ends at the table's last entry, /dev/console |
| Mount.ConsolePlan | src/namespaces/mount/mount.c:309-326 | at the index the device loop ends at, a placeholder is created at `<rootfs>/dev/console`, the terminal is bind-mounted onto it with MS_BIND and MS_PRIVATE and "uid=0,gid=0,mode=0600", and it is closed unchecked; no step is a `mknod` |
| Mount.SetupDevices | src/namespaces/mount/mount.c:239-326 | the device plan is followed by the console step on the loop's final index, whose mount binds the terminal onto `<rootfs>/dev/console` |
| Mount.RootfsPlan | src/namespaces/mount/mount.c:208-334 | no step before the pivot is a pivot or an open, and every mount among them is checked |
| Mount.DevicesByNamespace | src/namespaces/mount/mount.c:239-326 | without a user namespace the six loop devices are created with `mknod` and the console never is; in one, nothing is, and each loop device is bind-mounted from the host |
| Mount.PrepareRootfs | src/namespaces/mount/mount.c:208-334 | a failed `getcwd` ends the process at once; completion needs a working directory |
| Mount.PivotHead | src/namespaces/mount/mount.c:88-108 | three mounts, none a pivot: rslave `/`, private `/`, rbind the new root onto itself |
| Mount.PivotTail | src/namespaces/mount/mount.c:121-204 | ten calls with `pivot_root(".", ".")` fourth, and every mount checked |
| Mount.PerformPivotRootAsWritten | src/namespaces/mount/mount.c:84-206 | the trace is a prefix of the pivot plan in which the MS_PRIVATE remount is unchecked |
| Mount.PerformPivotRoot | src/namespaces/mount/mount.c:84-206 | the trace is a prefix of the pivot plan, and a completed run saw every mount succeed |
| Mount.CheckedMountsSucceed | src/namespaces/mount/mount.c:84-206 | when every mount of a plan is checked, a completed run saw every mount succeed |
| Mount.BindPrecedesPivot | src/namespaces/mount/mount.c:88-134 | whenever the pivot happens, the rslave, private and bind mounts and all of `prepare_rootfs` came before it, in order |
| Mount.PrivateHeadRuns | src/namespaces/mount/mount.c:88-108 | when the MS_PRIVATE remount fails, the unchecked head goes on to the bind mount and the checked head stops at the remount |
| Mount.PrivateFailureIgnored | src/namespaces/mount/mount.c:96-97 | when the MS_PRIVATE remount fails, the source as written still binds the new root, while the corrected version ends the process there |

## Left out

- Socket I/O is not modelled: `create_socket`, `sendmsg`/`recvmsg`, the reading part of `read_response`, `if_up` and `get_netns_fd`. What `recvmsg` returns and the MSG_TRUNC bit are parameters of the reply classifiers.
- `src/namespaces/network/network.c`, `src/runc.c` and `drop_root_privileges` are process and namespace plumbing (setns, clone, wait, `system()`, setuid) and are not part of this model.
- libiptc, libseccomp, libcap and `prctl` are modelled only as calls that succeed or fail. Their answers are given up front.
- `inet_pton` is a parameter. Masks are kept in host order. `_init_addr` stores `htonl` of the host-order mask, and `masquerade` stores the parse of "255.255.255.0"; both give the same bytes, so the model uses `PrefixMask(24)` for both.
- Cidr.InitAddr: a missing slash, or a prefix outside 1..32, is undefined behaviour in C (`strdup(NULL)`, or a shift by 32 or more). Both are preconditions.
- Iptables: struct sizes are parameters. Names are kept whole. Each `strncpy(dst, src, strlen(src) + 1)` can overflow on a long name, and that is not modelled. This covers the 16-byte interface fields and the 29-byte target name that receives the rule's type (helpers.c:561, 568).
- Netlink.AddAttr: `rta_len` is a `__u16` holding `4 + datalen`. The model requires that to stay below 2^16 rather than modelling its wrap.
- Netlink.AddAttr: the source only prints a warning when the new length exceeds `maxlen` and appends anyway. The model requires the new length to stay within `maxlen`, and `maxlen` within the buffer.
- Netlink.NlmsgPut: it requires the appended bytes to fit the buffer, which the source leaves to its callers.
- Netlink.NlmsgPut: the `nlmsg_len` of the message it is given is taken to be small enough that rounding it up to a multiple of 4 does not wrap in 32 bits.
- NetlinkRequests.CreateVeth: interface names are byte strings copied whole with a NUL appended. A name holding a 0 byte would be cut short by C's `strlen`, and that case is not modelled.
- NetlinkRequests.MoveIfToPidNetns: the same holds for its interface name.
- NetlinkReply: `check_response` reads the length and type from a freshly `malloc`ed buffer whatever `recvmsg` returned. The model takes the whole buffer as input and does not model uninitialised bytes.
- Cli: `getopt`'s own scanning is not modelled; the input is the sequence of options it returns. The parsed limits are never passed on by `main` ("TODO" in the source), so the model ends with the outcome.
- Entrypoint: `main` passes a `char[]` where a `char ***` is expected. The model follows the callee's own contract and does not model that mismatch.
- Mount: what the calls do to the filesystem is not modelled; they appear as trace entries with answers from a parameter. `printErr` and `exit` are modelled as the end of the trace.
- Mount: `ttyname(0)` may return NULL when standard input is not a terminal. The model gives the terminal as a plain string, and a NULL source is covered by the kernel parameter's answer for the console bind mount.
- Mount: `prepare_dev_fd` has its body commented out and no return statement, so its result is undefined. The model takes its success or failure from the kernel parameter.
- Mount: `strcat` and `memmove` never return NULL, so their NULL checks are dead and are not modelled.
- Mount.GetRootfs: a working directory shorter than five characters makes `memmove` write before the buffer. That case is a precondition.
- Capabilities: `cap_free` is not modelled.
- Seccomp: `seccomp_release` is not modelled.
- Iptables: `iptc_free` is not modelled.
- Cgroup.InitResources: requires the inputs to fit a `long`, and the CPU percentage times 1024 to fit one too, as the source's `long` arithmetic assumes. `strdup` and `malloc` are taken to succeed.
- Decimal.StrToL: `errno` is not modelled. Only base 10 is modelled, which is the only base the source uses.
- User: `snprintf` truncation to `PATH_MAX` is not modelled, since the paths are short.
- User.UpdateMap: the source writes `strlen` bytes of a buffer it rewrote in place; the model writes the rewritten text.
- Debug output, `printUsage` and the wording of messages are not modelled.

## Findings

| source | as written | input that shows it | evidently intended | confidence | as-written member | corrected member |
|---|---|---|---|---|---|---|
| src/helpers/helpers.c:80-84 | `nlmsg_len` is read into a signed `int`, so `datalen < 0 \|\| nlmsglen > resp_len` passes a length field of 2^31 to 2^31 + 15 | a 36-byte reply whose length field is 0x80000000 | the length is compared unsigned, so any length above the bytes read is malformed | not executed | NetlinkReply.CheckResponseAsWritten, NetlinkReply.MalformedAsWrittenMissesHugeLength | NetlinkReply.CheckResponse |
| src/helpers/helpers.c:312 | `malloc(size - optind)` allocates one byte per argument, and the loop stores an 8-byte pointer per argument | `prog -a sh`: size 3, optind 2, 1 byte allocated, 8 stored | `malloc((size - optind) * sizeof(char *))` | not executed | Entrypoint.AllocTooSmall | Entrypoint.ChildEntrypoint |
| src/namespaces/mount/mount.c:96 | the MS_PRIVATE remount's result is compared with 1, which `mount` never returns, so a failure is ignored | a kernel that refuses the MS_PRIVATE remount of `/` | compared with -1 like the other mounts, ending the process | not executed | Mount.PerformPivotRootAsWritten, Mount.PrivateFailureIgnored | Mount.PerformPivotRoot |
